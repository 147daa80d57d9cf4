/**
 * Sorting students by one field (utils/dsa.ts, feature 10): a top-down merge
 * sort whose merge is a two-index loop. A missing value compares as 0, and on
 * equal keys the merge takes the RIGHT element first, so the sort is not stable.
 *
 * The sort itself is written over any element type and any comparison
 * `goesFirst(l, r)` (the merge's `condition`); the student directory
 * instantiates it with `Before(key, order)`.
 */
module MergeSort {
  import opened Types
  import opened Text

  /** The fields the student directory sorts on (its column headers and the default `id`). */
  datatype SortKey = Id | Name | Branch | Cgpa | Package

  datatype Direction = Asc | Desc

  /** `a[key] < b[key]`, with `?? 0` for a missing package; strings compare as JavaScript strings. */
  predicate KeyLess(key: SortKey, a: Student, b: Student)
  {
    match key
    case Id => LexLess(a.id, b.id)
    case Name => LexLess(a.name, b.name)
    case Branch => LexLess(a.branch, b.branch)
    case Cgpa => a.cgpa < b.cgpa
    case Package => PackageOr0(a) < PackageOr0(b)
  }

  /** The merge's `condition`: `lV < rV` for `asc`, `lV > rV` for `desc`. */
  predicate Before(key: SortKey, order: Direction, l: Student, r: Student)
  {
    if order == Asc then KeyLess(key, l, r) else KeyLess(key, r, l)
  }

  /** `Before` for one key and direction, as the comparison the sort takes. */
  function Comparison(key: SortKey, order: Direction): (Student, Student) -> bool
  {
    (l: Student, r: Student) => Before(key, order, l, r)
  }

  /** A strict weak order: asymmetric, and "does not go first" is transitive. */
  ghost predicate WeakOrder<T(!new)>(goesFirst: (T, T) -> bool)
  {
    (forall a, b :: goesFirst(a, b) ==> !goesFirst(b, a)) &&
    (forall a, b, c :: !goesFirst(c, b) && !goesFirst(b, a) ==> !goesFirst(c, a))
  }

  /** No later element goes strictly before an earlier one. */
  ghost predicate Ordered<T>(s: seq<T>, goesFirst: (T, T) -> bool)
  {
    forall i, j :: 0 <= i < j < |s| ==> !goesFirst(s[j], s[i])
  }

  lemma StringWeakOrder(a: string, b: string, c: string)
    ensures !LexLess(a, a)
    ensures LexLess(a, b) ==> !LexLess(b, a)
    ensures LexLess(c, a) ==> LexLess(c, b) || LexLess(b, a)
  {
    LexLessIrreflexive(a);
    if LexLess(a, b) && LexLess(b, a) {
      LexLessTransitive(a, b, a);
      assert false;
    }
    if LexLess(c, a) && !LexLess(b, a) {
      if a == b {
      } else {
        LexLessTotal(a, b);
        LexLessTransitive(c, a, b);
      }
    }
  }

  /** Every key comparison is a strict weak order: irreflexive, asymmetric, and its complement is transitive. */
  lemma KeyLessWeakOrder(key: SortKey, a: Student, b: Student, c: Student)
    ensures !KeyLess(key, a, a)
    ensures KeyLess(key, a, b) ==> !KeyLess(key, b, a)
    ensures KeyLess(key, c, a) ==> KeyLess(key, c, b) || KeyLess(key, b, a)
  {
    match key
    case Id => StringWeakOrder(a.id, b.id, c.id);
    case Name => StringWeakOrder(a.name, b.name, c.name);
    case Branch => StringWeakOrder(a.branch, b.branch, c.branch);
    case Cgpa =>
    case Package =>
  }

  /** `Before` is a strict weak order for every key, in either direction. */
  lemma ComparisonIsWeakOrder(key: SortKey, order: Direction)
    ensures WeakOrder(Comparison(key, order))
  {
    var f := Comparison(key, order);
    forall a, b | f(a, b) ensures !f(b, a) {
      KeyLessWeakOrder(key, a, b, a);
    }
    forall a, b, c | !f(c, b) && !f(b, a) ensures !f(c, a) {
      KeyLessWeakOrder(key, a, b, c);
      KeyLessWeakOrder(key, c, b, a);
    }
  }

  /**
   * The merge as a recursive function over the two indices: the value the
   * loop computes from `left[i..]` and `right[j..]`.
   */
  function MergeFrom<T>(left: seq<T>, right: seq<T>, i: nat, j: nat, goesFirst: (T, T) -> bool): seq<T>
    requires i <= |left| && j <= |right|
    decreases |left| - i + |right| - j
  {
    if i == |left| then right[j..]
    else if j == |right| then left[i..]
    else if goesFirst(left[i], right[j]) then [left[i]] + MergeFrom(left, right, i + 1, j, goesFirst)
    else [right[j]] + MergeFrom(left, right, i, j + 1, goesFirst)
  }

  /** The merge emits every remaining element once. */
  lemma {:induction false} MergeFromLength<T>(left: seq<T>, right: seq<T>, i: nat, j: nat, goesFirst: (T, T) -> bool)
    requires i <= |left| && j <= |right|
    ensures |MergeFrom(left, right, i, j, goesFirst)| == |left| - i + |right| - j
    decreases |left| - i + |right| - j
  {
    if i < |left| && j < |right| {
      if goesFirst(left[i], right[j]) {
        MergeFromLength(left, right, i + 1, j, goesFirst);
      } else {
        MergeFromLength(left, right, i, j + 1, goesFirst);
      }
    }
  }

  /** The merge loses and invents nothing: its result is a permutation of both inputs together. */
  lemma {:induction false} MergePermutes<T>(left: seq<T>, right: seq<T>, i: nat, j: nat, goesFirst: (T, T) -> bool)
    requires i <= |left| && j <= |right|
    ensures multiset(MergeFrom(left, right, i, j, goesFirst)) == multiset(left[i..]) + multiset(right[j..])
    decreases |left| - i + |right| - j
  {
    if i == |left| {
      assert left[i..] == [];
    } else if j == |right| {
      assert right[j..] == [];
    } else if goesFirst(left[i], right[j]) {
      MergePermutes(left, right, i + 1, j, goesFirst);
      TakeLeftPermutes(left, right, i, j, goesFirst);
    } else {
      MergePermutes(left, right, i, j + 1, goesFirst);
      TakeRightPermutes(left, right, i, j, goesFirst);
    }
  }

  lemma TakeLeftPermutes<T>(left: seq<T>, right: seq<T>, i: nat, j: nat, goesFirst: (T, T) -> bool)
    requires i < |left| && j < |right| && goesFirst(left[i], right[j])
    requires multiset(MergeFrom(left, right, i + 1, j, goesFirst)) == multiset(left[i + 1..]) + multiset(right[j..])
    ensures multiset(MergeFrom(left, right, i, j, goesFirst)) == multiset(left[i..]) + multiset(right[j..])
  {
    var tail := MergeFrom(left, right, i + 1, j, goesFirst);
    assert MergeFrom(left, right, i, j, goesFirst) == [left[i]] + tail;
    assert left[i..] == [left[i]] + left[i + 1..];
  }

  lemma TakeRightPermutes<T>(left: seq<T>, right: seq<T>, i: nat, j: nat, goesFirst: (T, T) -> bool)
    requires i < |left| && j < |right| && !goesFirst(left[i], right[j])
    requires multiset(MergeFrom(left, right, i, j + 1, goesFirst)) == multiset(left[i..]) + multiset(right[j + 1..])
    ensures multiset(MergeFrom(left, right, i, j, goesFirst)) == multiset(left[i..]) + multiset(right[j..])
  {
    var tail := MergeFrom(left, right, i, j + 1, goesFirst);
    assert MergeFrom(left, right, i, j, goesFirst) == [right[j]] + tail;
    assert right[j..] == [right[j]] + right[j + 1..];
  }

  /** Merging two ordered runs gives an ordered run. */
  lemma {:induction false} MergeOrdered<T(!new)>(left: seq<T>, right: seq<T>, i: nat, j: nat, goesFirst: (T, T) -> bool)
    requires i <= |left| && j <= |right|
    requires WeakOrder(goesFirst)
    requires Ordered(left, goesFirst) && Ordered(right, goesFirst)
    ensures Ordered(MergeFrom(left, right, i, j, goesFirst), goesFirst)
    decreases |left| - i + |right| - j, 1
  {
    if i == |left| {
      OrderedSuffix(right, j, goesFirst);
    } else if j == |right| {
      OrderedSuffix(left, i, goesFirst);
    } else if goesFirst(left[i], right[j]) {
      TakeLeftOrdered(left, right, i, j, goesFirst);
    } else {
      TakeRightOrdered(left, right, i, j, goesFirst);
    }
  }

  /** The left candidate goes first and no pending element goes before it. */
  lemma {:induction false} TakeLeftOrdered<T(!new)>(left: seq<T>, right: seq<T>, i: nat, j: nat, goesFirst: (T, T) -> bool)
    requires i < |left| && j < |right| && goesFirst(left[i], right[j])
    requires WeakOrder(goesFirst)
    requires Ordered(left, goesFirst) && Ordered(right, goesFirst)
    ensures Ordered(MergeFrom(left, right, i, j, goesFirst), goesFirst)
    decreases |left| - i + |right| - j, 0
  {
    var x, tail := left[i], MergeFrom(left, right, i + 1, j, goesFirst);
    MergeOrdered(left, right, i + 1, j, goesFirst);
    MergePermutes(left, right, i + 1, j, goesFirst);
    forall k | 0 <= k < |tail| ensures !goesFirst(tail[k], x) {
      assert tail[k] in multiset(tail);
      if tail[k] in multiset(left[i + 1..]) {
        var m :| i + 1 <= m < |left| && left[m] == tail[k];
      } else {
        var m :| j <= m < |right| && right[m] == tail[k];
      }
    }
    OrderedCons(x, tail, goesFirst);
    assert MergeFrom(left, right, i, j, goesFirst) == [x] + tail;
  }

  /** The right candidate goes first and no pending element goes before it. */
  lemma {:induction false} TakeRightOrdered<T(!new)>(left: seq<T>, right: seq<T>, i: nat, j: nat, goesFirst: (T, T) -> bool)
    requires i < |left| && j < |right| && !goesFirst(left[i], right[j])
    requires WeakOrder(goesFirst)
    requires Ordered(left, goesFirst) && Ordered(right, goesFirst)
    ensures Ordered(MergeFrom(left, right, i, j, goesFirst), goesFirst)
    decreases |left| - i + |right| - j, 0
  {
    var x, tail := right[j], MergeFrom(left, right, i, j + 1, goesFirst);
    MergeOrdered(left, right, i, j + 1, goesFirst);
    MergePermutes(left, right, i, j + 1, goesFirst);
    forall k | 0 <= k < |tail| ensures !goesFirst(tail[k], x) {
      assert tail[k] in multiset(tail);
      if tail[k] in multiset(left[i..]) {
        var m :| i <= m < |left| && left[m] == tail[k];
      } else {
        var m :| j + 1 <= m < |right| && right[m] == tail[k];
      }
    }
    OrderedCons(x, tail, goesFirst);
    assert MergeFrom(left, right, i, j, goesFirst) == [x] + tail;
  }

  lemma OrderedSuffix<T>(s: seq<T>, i: nat, goesFirst: (T, T) -> bool)
    requires i <= |s| && Ordered(s, goesFirst)
    ensures Ordered(s[i..], goesFirst)
  {
    var t := s[i..];
    forall a, b | 0 <= a < b < |t| ensures !goesFirst(t[b], t[a]) {
      assert t[a] == s[i + a] && t[b] == s[i + b];
    }
  }

  lemma OrderedCons<T>(x: T, s: seq<T>, goesFirst: (T, T) -> bool)
    requires Ordered(s, goesFirst)
    requires forall k :: 0 <= k < |s| ==> !goesFirst(s[k], x)
    ensures Ordered([x] + s, goesFirst)
  {
    var t := [x] + s;
    forall i, j | 0 <= i < j < |t| ensures !goesFirst(t[j], t[i]) {
      if i > 0 {
        assert t[i] == s[i - 1] && t[j] == s[j - 1];
      } else {
        assert t[j] == s[j - 1];
      }
    }
  }

  /** `merge`: advance two indices, emitting the left element only when it strictly goes first. */
  method Merge<T>(left: seq<T>, right: seq<T>, goesFirst: (T, T) -> bool) returns (resultArray: seq<T>)
    ensures resultArray == MergeFrom(left, right, 0, 0, goesFirst)
  {
    resultArray := [];
    var leftIndex, rightIndex := 0, 0;
    while leftIndex < |left| && rightIndex < |right|
      invariant 0 <= leftIndex <= |left| && 0 <= rightIndex <= |right|
      invariant MergeFrom(left, right, 0, 0, goesFirst) == resultArray + MergeFrom(left, right, leftIndex, rightIndex, goesFirst)
      decreases |left| - leftIndex + |right| - rightIndex
    {
      var condition := goesFirst(left[leftIndex], right[rightIndex]);
      if condition {
        TakeLeft(resultArray, left, right, leftIndex, rightIndex, goesFirst);
        resultArray := resultArray + [left[leftIndex]];
        leftIndex := leftIndex + 1;
      } else {
        TakeRight(resultArray, left, right, leftIndex, rightIndex, goesFirst);
        resultArray := resultArray + [right[rightIndex]];
        rightIndex := rightIndex + 1;
      }
    }
    MergeFromExhausted(resultArray, left, right, leftIndex, rightIndex, goesFirst);
    resultArray := resultArray + left[leftIndex..] + right[rightIndex..];
  }

  /** An iteration that emits the left candidate moves it from the pending merge to the output. */
  lemma TakeLeft<T>(done: seq<T>, left: seq<T>, right: seq<T>, i: nat, j: nat, goesFirst: (T, T) -> bool)
    requires i < |left| && j < |right| && goesFirst(left[i], right[j])
    ensures done + MergeFrom(left, right, i, j, goesFirst) == (done + [left[i]]) + MergeFrom(left, right, i + 1, j, goesFirst)
  {
    var tail := MergeFrom(left, right, i + 1, j, goesFirst);
    assert MergeFrom(left, right, i, j, goesFirst) == [left[i]] + tail;
    assert done + ([left[i]] + tail) == (done + [left[i]]) + tail;
  }

  /** An iteration that emits the right candidate moves it from the pending merge to the output. */
  lemma TakeRight<T>(done: seq<T>, left: seq<T>, right: seq<T>, i: nat, j: nat, goesFirst: (T, T) -> bool)
    requires i < |left| && j < |right| && !goesFirst(left[i], right[j])
    ensures done + MergeFrom(left, right, i, j, goesFirst) == (done + [right[j]]) + MergeFrom(left, right, i, j + 1, goesFirst)
  {
    var tail := MergeFrom(left, right, i, j + 1, goesFirst);
    assert MergeFrom(left, right, i, j, goesFirst) == [right[j]] + tail;
    assert done + ([right[j]] + tail) == (done + [right[j]]) + tail;
  }

  /** Once either run is used up, the merge is the output so far followed by the rest of both runs. */
  lemma MergeFromExhausted<T>(done: seq<T>, left: seq<T>, right: seq<T>, i: nat, j: nat, goesFirst: (T, T) -> bool)
    requires i <= |left| && j <= |right| && (i == |left| || j == |right|)
    requires MergeFrom(left, right, 0, 0, goesFirst) == done + MergeFrom(left, right, i, j, goesFirst)
    ensures MergeFrom(left, right, 0, 0, goesFirst) == done + left[i..] + right[j..]
  {
    if i == |left| {
      assert left[i..] == [];
      assert done + left[i..] == done;
    } else {
      assert right[j..] == [];
      assert done + left[i..] + right[j..] == done + left[i..];
    }
  }

  /** `mergeSortStudents` as a function: split at `floor(n / 2)`, sort both halves, merge. */
  function MergeSort<T>(arr: seq<T>, goesFirst: (T, T) -> bool): (r: seq<T>)
    ensures |r| == |arr|
    ensures |arr| <= 1 ==> r == arr
    decreases |arr|
  {
    if |arr| <= 1 then arr
    else
      var mid := |arr| / 2;
      var left, right := MergeSort(arr[..mid], goesFirst), MergeSort(arr[mid..], goesFirst);
      MergeFromLength(left, right, 0, 0, goesFirst);
      MergeFrom(left, right, 0, 0, goesFirst)
  }

  /** The sort returns a permutation of its input. */
  lemma {:induction false} MergeSortPermutes<T>(arr: seq<T>, goesFirst: (T, T) -> bool)
    ensures multiset(MergeSort(arr, goesFirst)) == multiset(arr)
    decreases |arr|
  {
    if |arr| > 1 {
      var mid := |arr| / 2;
      var a, b := arr[..mid], arr[mid..];
      assert arr == a + b;
      var left, right := MergeSort(a, goesFirst), MergeSort(b, goesFirst);
      MergeSortPermutes(a, goesFirst);
      MergeSortPermutes(b, goesFirst);
      MergePermutes(left, right, 0, 0, goesFirst);
      assert left[0..] == left && right[0..] == right;
      assert MergeSort(arr, goesFirst) == MergeFrom(left, right, 0, 0, goesFirst);
    }
  }

  /** For a strict weak order the sort's result is ordered. */
  lemma {:induction false} MergeSortOrdered<T(!new)>(arr: seq<T>, goesFirst: (T, T) -> bool)
    requires WeakOrder(goesFirst)
    ensures Ordered(MergeSort(arr, goesFirst), goesFirst)
    decreases |arr|
  {
    if |arr| > 1 {
      var mid := |arr| / 2;
      var a, b := arr[..mid], arr[mid..];
      var left, right := MergeSort(a, goesFirst), MergeSort(b, goesFirst);
      MergeSortOrdered(a, goesFirst);
      MergeSortOrdered(b, goesFirst);
      MergeOrdered(left, right, 0, 0, goesFirst);
      assert MergeSort(arr, goesFirst) == MergeFrom(left, right, 0, 0, goesFirst);
    }
  }

  /** `mergeSortStudents(arr, key, order)`: the sort, computed with the merge loop. */
  method MergeSortStudents<T>(arr: seq<T>, goesFirst: (T, T) -> bool) returns (r: seq<T>)
    ensures r == MergeSort(arr, goesFirst)
    decreases |arr|
  {
    if |arr| <= 1 {
      return arr;
    }
    var mid := |arr| / 2;
    var left := MergeSortStudents(arr[..mid], goesFirst);
    var right := MergeSortStudents(arr[mid..], goesFirst);
    r := Merge(left, right, goesFirst);
  }

  /** The directory's sort by one field: a permutation, ordered by the key in the direction. */
  function SortStudents(arr: seq<Student>, key: SortKey, order: Direction): (r: seq<Student>)
    ensures multiset(r) == multiset(arr)
    ensures forall i, j :: 0 <= i < j < |r| ==> !Before(key, order, r[j], r[i])
  {
    var r := MergeSort(arr, Comparison(key, order));
    MergeSortPermutes(arr, Comparison(key, order));
    ComparisonIsWeakOrder(key, order);
    MergeSortOrdered(arr, Comparison(key, order));
    assert Ordered(r, Comparison(key, order));
    r
  }

  /**
   * Not stable: two students with equal keys come out swapped, and sorting the
   * result again swaps them back.
   */
  lemma TiesAreSwapped(a: Student, b: Student, key: SortKey, order: Direction)
    requires !KeyLess(key, a, b) && !KeyLess(key, b, a)
    ensures SortStudents([a, b], key, order) == [b, a]
    ensures SortStudents([b, a], key, order) == [a, b]
  {
    var f := Comparison(key, order);
    assert !f(a, b) && !f(b, a);
    PairSwapped(a, b, f);
    PairSwapped(b, a, f);
  }

  /** A two-element input whose first element does not go first comes out reversed. */
  lemma PairSwapped<T>(a: T, b: T, goesFirst: (T, T) -> bool)
    requires !goesFirst(a, b)
    ensures MergeSort([a, b], goesFirst) == [b, a]
  {
    assert [a, b][..1] == [a] && [a, b][1..] == [b];
    assert MergeFrom([a], [b], 0, 0, goesFirst) == [b] + MergeFrom([a], [b], 0, 1, goesFirst);
  }
}

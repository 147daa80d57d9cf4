/**
 * Competitiveness ranking (utils/dsa.ts, feature 3): students are pushed
 * into an array-backed max-heap keyed on a weighted score, and the ranking
 * is a sorted copy of that array.
 */
module Ranking {
  import opened Types
  import opened Sequences

  /**
   * The weighted score: grade point average, skills, internships and projects.
   * With no negative counts, it is at least ten times the grade.
   */
  function Score(s: Student): (r: real)
    ensures s.projects >= 0 && s.internships >= 0 ==> r >= s.cgpa * 10.0
  {
    s.cgpa * 10.0 + (|s.skills| as real) * 5.0 + (s.internships as real) * 8.0 + (s.projects as real) * 3.0
  }

  /** The key `getRankedList` sorts on ascending: the negated score. */
  function NegScore(s: Student): real
  {
    -Score(s)
  }

  /** `Math.floor((i - 1) / 2)` for a non-root index. */
  function Parent(i: int): (p: int)
    requires i > 0
    ensures 0 <= p < i
    ensures i == 2 * p + 1 || i == 2 * p + 2
  {
    (i - 1) / 2
  }

  /** A student at least as strong on every count scores at least as much; one more skill adds 5. */
  lemma ScoreMonotone(s: Student, t: Student)
    requires s.cgpa <= t.cgpa && |s.skills| <= |t.skills|
    requires s.internships <= t.internships && s.projects <= t.projects
    ensures Score(s) <= Score(t)
    ensures (&& |t.skills| == |s.skills| + 1 && t.cgpa == s.cgpa
             && t.internships == s.internships && t.projects == s.projects) ==> Score(t) == Score(s) + 5.0
  {
  }

  /** Every element but the root scores at most its parent. */
  ghost predicate IsMaxHeap(h: seq<Student>)
  {
    forall i :: 0 < i < |h| ==> Score(h[Parent(i)]) >= Score(h[i])
  }

  /** The heap order holds at every index except possibly `k`. */
  ghost predicate HeapExceptAt(h: seq<Student>, k: int)
  {
    forall i :: 0 < i < |h| && i != k ==> Score(h[Parent(i)]) >= Score(h[i])
  }

  /** The parent of `k` scores at least every child of `k`. */
  ghost predicate GrandparentBound(h: seq<Student>, k: int)
    requires 0 <= k < |h|
  {
    k > 0 ==> forall c :: 0 < c < |h| && Parent(c) == k ==> Score(h[Parent(k)]) >= Score(h[c])
  }

  class StudentMaxHeap {
    var heap: seq<Student>

    ghost predicate Valid()
      reads this
    {
      IsMaxHeap(heap)
    }

    /** `new StudentMaxHeap(students)`: inserts every student in list order. */
    constructor (students: seq<Student>)
      ensures Valid()
      ensures multiset(heap) == multiset(students)
    {
      heap := [];
      new;
      var i := 0;
      while i < |students|
        invariant 0 <= i <= |students|
        invariant Valid()
        invariant multiset(heap) == multiset(students[..i])
      {
        Insert(students[i]);
        assert students[..i + 1] == students[..i] + [students[i]];
        i := i + 1;
      }
      assert students[..|students|] == students;
    }

    /** `insert`: push, then sift the new element up. */
    method Insert(student: Student)
      requires Valid()
      modifies this
      ensures Valid()
      ensures |heap| == |old(heap)| + 1
      ensures multiset(heap) == multiset(old(heap)) + multiset{student}
    {
      heap := heap + [student];
      HeapifyUp();
    }

    /** `heapifyUp`: swap the last element with its parent while it outscores it. */
    method HeapifyUp()
      requires HeapExceptAt(heap, |heap| - 1)
      modifies this
      ensures Valid()
      ensures |heap| == |old(heap)|
      ensures multiset(heap) == multiset(old(heap))
    {
      var index := |heap| - 1;
      while index > 0
        invariant -1 <= index < |heap|
        invariant |heap| == |old(heap)|
        invariant multiset(heap) == multiset(old(heap))
        invariant HeapExceptAt(heap, index)
        invariant index >= 0 ==> GrandparentBound(heap, index)
      {
        var parentIndex := Parent(index);
        if Score(heap[parentIndex]) < Score(heap[index]) {
          Swap(index, parentIndex);
          index := parentIndex;
        } else {
          break;
        }
      }
    }

    /** `swap(i1, i2)`. */
    method Swap(i1: int, i2: int)
      requires 0 <= i1 < |heap| && 0 <= i2 < |heap|
      modifies this
      ensures heap == old(heap)[i1 := old(heap)[i2]][i2 := old(heap)[i1]]
      ensures multiset(heap) == multiset(old(heap))
    {
      heap := heap[i1 := heap[i2]][i2 := heap[i1]];
    }

    /**
     * `getRankedList`: a sorted copy of the heap array, highest score first,
     * students of equal score in their heap-array order.
     * It changes nothing (no frame), so it can be called again for the same answer.
     */
    method GetRankedList() returns (ranked: seq<Student>)
      ensures multiset(ranked) == multiset(heap)
      ensures |ranked| == |heap|
      ensures forall i, j :: 0 <= i < j < |ranked| ==> Score(ranked[i]) >= Score(ranked[j])
      ensures forall v :: Filter(ranked, KeyIs(NegScore, v)) == Filter(heap, KeyIs(NegScore, v))
    {
      ranked := SortByKey(heap, NegScore);
      assert SortedBy(ranked, NegScore);
      forall v ensures Filter(ranked, KeyIs(NegScore, v)) == Filter(heap, KeyIs(NegScore, v)) {
        SortByKeyStable(heap, NegScore, v);
      }
    }
  }

  /** The first two students of the mock data set. */
  const Aarav := Student("1", "Aarav Sharma", "CSE", 9.2, ["React", "Node.js", "Python", "Java"], 4, 2, true,
                         Some("c1"), Some(18.0), Some("Expert in React and Node.js with 2 internships."))
  const Vihaan := Student("2", "Vihaan Gupta", "CSE", 8.5, ["C++", "DSA", "SQL"], 2, 1, true,
                          Some("c2"), Some(12.0), None)

  lemma MockScores()
    ensures Score(Aarav) == 140.0
    ensures Score(Vihaan) == 114.0
  {
  }

  /** Building the heap from [Vihaan, Aarav] ranks Aarav first. */
  method RankMockPair() returns (ranked: seq<Student>)
    ensures ranked == [Aarav, Vihaan]
  {
    var h := new StudentMaxHeap([Vihaan, Aarav]);
    ranked := h.GetRankedList();
    assert |ranked| == 2;
    assert multiset([ranked[0], ranked[1]]) == multiset{Vihaan, Aarav} by {
      assert ranked == [ranked[0], ranked[1]];
    }
    assert Score(ranked[0]) >= Score(ranked[1]);
    assert ranked == [ranked[0], ranked[1]];
  }
}

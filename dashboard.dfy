/**
 * The placement overview's figures (components/Dashboard.tsx): the number of
 * placed students, the branch-wise totals built by a `reduce` that updates
 * its accumulator entries in place, the placed/unplaced pie and the highest
 * package.
 *
 * The accumulator's entries are JavaScript objects bumped through the
 * reference `find` returns; here they are values in a sequence the loop
 * reassigns at the found position.
 */
module Dashboard {
  import opened Types
  import opened Sequences

  /** `students.filter(s => s.placed).length`. */
  function PlacedCount(students: seq<Student>): (n: nat)
    ensures n <= |students|
    ensures n == |students| <==> forall i :: 0 <= i < |students| ==> students[i].placed
  {
    if students == [] then 0
    else PlacedCount(students[..|students| - 1]) + (if students[|students| - 1].placed then 1 else 0)
  }

  /** Every student's branch, in list order. */
  function Branches(students: seq<Student>): (r: seq<string>)
    ensures |r| == |students|
    ensures forall i :: 0 <= i < |students| ==> r[i] == students[i].branch
  {
    seq(|students|, i requires 0 <= i < |students| => students[i].branch)
  }

  /** How many students are in branch `b`. */
  function BranchCount(students: seq<Student>, b: string): nat
  {
    if students == [] then 0
    else BranchCount(students[..|students| - 1], b) + (if students[|students| - 1].branch == b then 1 else 0)
  }

  /** How many students of branch `b` are placed. */
  function PlacedIn(students: seq<Student>, b: string): nat
  {
    if students == [] then 0
    else
      var last := students[|students| - 1];
      PlacedIn(students[..|students| - 1], b) + (if last.branch == b && last.placed then 1 else 0)
  }

  /** One entry of `branchData`: `{ name, total, placed }`. */
  datatype BranchStat = BranchStat(name: string, total: nat, placed: nat)

  function SumTotals(rows: seq<BranchStat>): nat
  {
    if rows == [] then 0 else SumTotals(rows[..|rows| - 1]) + rows[|rows| - 1].total
  }

  function SumPlaced(rows: seq<BranchStat>): nat
  {
    if rows == [] then 0 else SumPlaced(rows[..|rows| - 1]) + rows[|rows| - 1].placed
  }

  /** Replacing one entry changes the sums by the difference it makes. */
  lemma {:induction false} SumsAfterUpdate(rows: seq<BranchStat>, j: nat, x: BranchStat)
    requires j < |rows|
    ensures SumTotals(rows[j := x]) == SumTotals(rows) - rows[j].total + x.total
    ensures SumPlaced(rows[j := x]) == SumPlaced(rows) - rows[j].placed + x.placed
  {
    var init := rows[..|rows| - 1];
    if j < |rows| - 1 {
      SumsAfterUpdate(init, j, x);
      assert rows[j := x][..|rows| - 1] == init[j := x];
    } else {
      assert rows[j := x][..|rows| - 1] == init;
    }
  }

  lemma SumsAfterAppend(rows: seq<BranchStat>, x: BranchStat)
    ensures SumTotals(rows + [x]) == SumTotals(rows) + x.total
    ensures SumPlaced(rows + [x]) == SumPlaced(rows) + x.placed
  {
    assert (rows + [x])[..|rows|] == rows;
  }

  /** `acc.find(item => item.name === b)`, as a position: the first entry named `b`, or `|acc|` when there is none. */
  function FindBranch(acc: seq<BranchStat>, b: string): (j: nat)
    ensures j <= |acc|
    ensures j < |acc| ==> acc[j].name == b
    ensures forall k :: 0 <= k < j ==> acc[k].name != b
  {
    if acc == [] then 0
    else if acc[0].name == b then 0
    else 1 + FindBranch(acc[1..], b)
  }

  /** `acc.find(item => item.name === b)`, scanning from the front. */
  method Find(acc: seq<BranchStat>, b: string) returns (j: nat)
    ensures j == FindBranch(acc, b)
  {
    j := 0;
    while j < |acc| && acc[j].name != b
      invariant j <= |acc| && forall k :: 0 <= k < j ==> acc[k].name != b
    {
      j := j + 1;
    }
  }

  /**
   * The reducer callback: `find` the entry of the student's branch and bump
   * its total, and its placed count when the student is placed; or push a
   * new entry when there is none.
   */
  method Reducer(acc: seq<BranchStat>, curr: Student) returns (acc': seq<BranchStat>)
    ensures acc' == Visit(acc, curr)
  {
    acc' := acc;
    var j := Find(acc', curr.branch);
    if j < |acc'| {
      var existing := acc'[j];
      existing := existing.(total := existing.total + 1);
      if curr.placed {
        existing := existing.(placed := existing.placed + 1);
      }
      acc' := acc'[j := existing];
    } else {
      acc' := acc' + [BranchStat(curr.branch, 1, if curr.placed then 1 else 0)];
    }
  }

  /** The reducer, for one student: bump the entry of its branch, or push a new one. */
  function Visit(acc: seq<BranchStat>, curr: Student): (r: seq<BranchStat>)
    ensures |acc| <= |r| <= |acc| + 1
    ensures forall k :: 0 <= k < |acc| ==> r[k].name == acc[k].name
    ensures |r| == |acc| <==> exists k :: 0 <= k < |acc| && acc[k].name == curr.branch
    ensures |r| == |acc| + 1 <==> forall k :: 0 <= k < |acc| ==> acc[k].name != curr.branch
    ensures |r| == |acc| + 1 ==> r[|acc|] == BranchStat(curr.branch, 1, if curr.placed then 1 else 0)
  {
    VisitAt(acc, curr, FindBranch(acc, curr.branch))
  }

  /** The reducer's update, once `find` has given position `j`. */
  function VisitAt(acc: seq<BranchStat>, curr: Student, j: nat): seq<BranchStat>
  {
    if j < |acc| then
      acc[j := acc[j].(total := acc[j].total + 1, placed := if curr.placed then acc[j].placed + 1 else acc[j].placed)]
    else
      acc + [BranchStat(curr.branch, 1, if curr.placed then 1 else 0)]
  }

  /** `students.reduce(reducer, [])`. */
  function Reduce(students: seq<Student>): (r: seq<BranchStat>)
    ensures |r| <= |students|
  {
    if students == [] then [] else Visit(Reduce(students[..|students| - 1]), students[|students| - 1])
  }

  /** One entry per branch, in order of first appearance. */
  ghost predicate NamesMatch(acc: seq<BranchStat>, students: seq<Student>)
  {
    && |acc| == |Distinct(Branches(students))|
    && (forall k :: 0 <= k < |acc| ==> acc[k].name == Distinct(Branches(students))[k])
  }

  /** Each entry counts the students, and the placed students, of its branch. */
  ghost predicate CountsMatch(acc: seq<BranchStat>, students: seq<Student>)
  {
    forall k :: 0 <= k < |acc| ==>
      acc[k].total == BranchCount(students, acc[k].name) && acc[k].placed == PlacedIn(students, acc[k].name)
  }

  /** The totals add up to the number of students, the placed counts to the number placed. */
  ghost predicate SumsMatch(acc: seq<BranchStat>, students: seq<Student>)
  {
    SumTotals(acc) == |students| && SumPlaced(acc) == PlacedCount(students)
  }

  /** One more student visited by the reduce: the counts of its branch grow, the others keep theirs. */
  lemma StudentVisited(students: seq<Student>, curr: Student, b: string)
    ensures BranchCount(students + [curr], b) == BranchCount(students, b) + (if curr.branch == b then 1 else 0)
    ensures PlacedIn(students + [curr], b) == PlacedIn(students, b) + (if curr.branch == b && curr.placed then 1 else 0)
    ensures PlacedCount(students + [curr]) == PlacedCount(students) + (if curr.placed then 1 else 0)
    ensures Branches(students + [curr]) == Branches(students) + [curr.branch]
  {
    assert (students + [curr])[..|students|] == students;
  }

  lemma VisitNames(acc: seq<BranchStat>, students: seq<Student>, curr: Student)
    requires NamesMatch(acc, students)
    ensures NamesMatch(Visit(acc, curr), students + [curr])
  {
    var b := curr.branch;
    StudentVisited(students, curr, b);
    DistinctSnoc(Branches(students), b);
    if FindBranch(acc, b) == |acc| {
      assert b !in Distinct(Branches(students));
    }
  }

  lemma VisitCounts(acc: seq<BranchStat>, students: seq<Student>, curr: Student)
    requires NamesMatch(acc, students) && CountsMatch(acc, students)
    ensures CountsMatch(Visit(acc, curr), students + [curr])
  {
    var acc', j := Visit(acc, curr), FindBranch(acc, curr.branch);
    DistinctMembers(Branches(students), curr.branch);
    forall k | 0 <= k < |acc'|
      ensures acc'[k].total == BranchCount(students + [curr], acc'[k].name)
      ensures acc'[k].placed == PlacedIn(students + [curr], acc'[k].name)
    {
      StudentVisited(students, curr, acc'[k].name);
      if k < |acc| && k != j {
        assert acc'[k] == acc[k];
        if j < |acc| {
          assert acc[k].name != acc[j].name;
        }
      } else if k == |acc| {
        assert curr.branch !in Branches(students);
        CountAbsent(students, curr.branch);
      }
    }
  }

  /** A branch no student is in has no students, placed or not. */
  lemma {:induction false} CountAbsent(students: seq<Student>, b: string)
    requires b !in Branches(students)
    ensures BranchCount(students, b) == 0 && PlacedIn(students, b) == 0
  {
    if students != [] {
      var init := students[..|students| - 1];
      assert Branches(init) == Branches(students)[..|init|];
      CountAbsent(init, b);
    }
  }

  lemma VisitSums(acc: seq<BranchStat>, students: seq<Student>, curr: Student)
    requires SumsMatch(acc, students)
    ensures SumsMatch(Visit(acc, curr), students + [curr])
  {
    var acc', j := Visit(acc, curr), FindBranch(acc, curr.branch);
    StudentVisited(students, curr, curr.branch);
    if j < |acc| {
      SumsAfterUpdate(acc, j, acc'[j]);
    } else {
      SumsAfterAppend(acc, acc'[j]);
    }
  }

  lemma ReduceStep(students: seq<Student>, i: nat)
    requires i < |students|
    ensures Reduce(students[..i + 1]) == Visit(Reduce(students[..i]), students[i])
  {
    assert students[..i + 1][..i] == students[..i];
  }

  /** The reduce builds the exact branch table: its names, counts and sums. */
  lemma {:induction false} ReduceNames(students: seq<Student>)
    ensures NamesMatch(Reduce(students), students)
  {
    if students != [] {
      var init, curr := students[..|students| - 1], students[|students| - 1];
      ReduceNames(init);
      VisitNames(Reduce(init), init, curr);
      assert init + [curr] == students;
    }
  }

  lemma {:induction false} ReduceCounts(students: seq<Student>)
    ensures CountsMatch(Reduce(students), students)
  {
    if students != [] {
      var init, curr := students[..|students| - 1], students[|students| - 1];
      ReduceNames(init);
      ReduceCounts(init);
      VisitCounts(Reduce(init), init, curr);
      assert init + [curr] == students;
    }
  }

  lemma {:induction false} ReduceSums(students: seq<Student>)
    ensures SumsMatch(Reduce(students), students)
  {
    if students != [] {
      var init, curr := students[..|students| - 1], students[|students| - 1];
      ReduceSums(init);
      VisitSums(Reduce(init), init, curr);
      assert init + [curr] == students;
    }
  }

  /** A branch has no more placed students than students. */
  lemma {:induction false} PlacedInAtMost(students: seq<Student>, b: string)
    ensures PlacedIn(students, b) <= BranchCount(students, b)
  {
    if students != [] {
      PlacedInAtMost(students[..|students| - 1], b);
    }
  }

  /**
   * The `branchData` reduce: for each student, `find` the entry of its branch
   * and bump its total (and its placed count when the student is placed), or
   * push a new entry. The result has one entry per branch, in the order the
   * branches first appear, with the number of students and of placed
   * students of that branch; the totals add up to the number of students
   * and the placed counts to the number placed.
   */
  method BranchData(students: seq<Student>) returns (acc: seq<BranchStat>)
    ensures |acc| == |Distinct(Branches(students))|
    ensures forall k :: 0 <= k < |acc| ==> acc[k].name == Distinct(Branches(students))[k]
    ensures forall k :: 0 <= k < |acc| ==>
      acc[k].total == BranchCount(students, acc[k].name) && acc[k].placed == PlacedIn(students, acc[k].name)
    ensures forall k :: 0 <= k < |acc| ==> acc[k].placed <= acc[k].total
    ensures SumTotals(acc) == |students| && SumPlaced(acc) == PlacedCount(students)
  {
    acc := [];
    for i := 0 to |students|
      invariant acc == Reduce(students[..i])
    {
      ReduceStep(students, i);
      acc := Reducer(acc, students[i]);
    }
    assert students[..|students|] == students;
    ReduceNames(students);
    ReduceCounts(students);
    ReduceSums(students);
    forall k | 0 <= k < |acc| ensures acc[k].placed <= acc[k].total {
      PlacedInAtMost(students, acc[k].name);
    }
  }

  /** The entries name every branch some student is in, and no branch twice. */
  lemma BranchNames(students: seq<Student>, b: string)
    ensures b in Distinct(Branches(students)) <==> exists i :: 0 <= i < |students| && students[i].branch == b
    ensures NoDuplicates(Distinct(Branches(students)))
  {
    DistinctMembers(Branches(students), b);
  }

  /** One slice of `pieData`. */
  datatype Slice = Slice(name: string, value: int)

  /** `pieData`: the placed and the unplaced students, which together are all of them. */
  function PieData(students: seq<Student>): (r: seq<Slice>)
    ensures |r| == 2 && r[0].name == "Placed" && r[1].name == "Unplaced"
    ensures 0 <= r[0].value && 0 <= r[1].value && r[0].value + r[1].value == |students|
    ensures r[0].value == PlacedCount(students)
  {
    var placedStudents := PlacedCount(students);
    [Slice("Placed", placedStudents), Slice("Unplaced", |students| - placedStudents)]
  }

  /** A JavaScript number that may be `-Infinity`, what `Math.max()` of nothing gives. */
  datatype Extended = NegInfinity | Finite(v: real)

  /**
   * `Math.max(...students.map(s => s.package || 0))`: `-Infinity` for no
   * students, else the largest package, a missing one reading as 0.
   */
  function MaxPackage(students: seq<Student>): (r: Extended)
    ensures r == NegInfinity <==> students == []
    ensures r.Finite? ==> forall i :: 0 <= i < |students| ==> PackageOr0(students[i]) <= r.v
    ensures r.Finite? ==> exists i :: 0 <= i < |students| && PackageOr0(students[i]) == r.v
  {
    if students == [] then NegInfinity
    else
      var init := students[..|students| - 1];
      var p := PackageOr0(students[|students| - 1]);
      var m := MaxPackage(init);
      if m.Finite? && p <= m.v then
        assert forall i :: 0 <= i < |init| ==> students[i] == init[i];
        m
      else
        assert forall i :: 0 <= i < |init| ==> students[i] == init[i];
        Finite(p)
  }
}

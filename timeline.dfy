/**
 * The placement timeline (components/Timeline.tsx): companies listed by
 * arrival date, and a drive simulation that pushes every student through a
 * queue and, round by round, dequeues everyone who entered the round and
 * re-enqueues those who pass.
 *
 * Two inputs of the original are injected: the pass verdict
 * `Math.random() < round.passRate` is `passes(r, i)` for the `i`-th student
 * dequeued in round `r`, and `new Date(d).getTime()` is `timeOf(d)`.
 */
module Timeline {
  import opened Types
  import opened Sequences
  import opened Queue

  datatype Round = Round(name: string, passRate: real)

  /** One entry of `roundsData`: the round's name, how many entered it, and how many passed. */
  datatype RoundStat = RoundStat(round: string, count: int, passed: int)

  /** The fixed list of rounds a drive may have. */
  const AllRounds: seq<Round> := [
    Round("Resume Shortlisting", 0.8),
    Round("Online Assessment", 0.5),
    Round("Technical Interview", 0.4),
    Round("HR Interview", 0.9)
  ]

  /** `rounds.slice(0, company.rounds)`. */
  function DriveRounds(company: Company): (r: seq<Round>)
    ensures |r| <= |AllRounds| && r == AllRounds[..|r|]
  {
    SliceTo(AllRounds, company.rounds)
  }

  /** A drive has `min(company.rounds, 4)` rounds, taken from the fixed list in order. */
  lemma DriveRoundsCount(company: Company)
    requires company.rounds >= 0
    ensures |DriveRounds(company)| == if company.rounds < 4 then company.rounds else 4
    ensures forall k :: 0 <= k < |DriveRounds(company)| ==> DriveRounds(company)[k] == AllRounds[k]
  {
  }

  /** The students of `xs` that pass round `r`, in the order they were dequeued. */
  function Winners(xs: seq<Student>, r: nat, passes: (nat, nat) -> bool): (w: seq<Student>)
    ensures SubsequenceOf(w, xs)
  {
    if xs == [] then []
    else
      var init := Winners(xs[..|xs| - 1], r, passes);
      if passes(r, |xs| - 1) then init + [xs[|xs| - 1]] else init
  }

  /** The positions, in dequeue order, of the students passing round `r`. */
  function WinnerPositions(n: nat, r: nat, passes: (nat, nat) -> bool): seq<nat>
  {
    if n == 0 then []
    else
      var init := WinnerPositions(n - 1, r, passes);
      if passes(r, n - 1) then init + [n - 1] else init
  }

  /**
   * Survivors keep their relative order: the winners are the dequeued students
   * at strictly increasing positions, exactly those whose verdict was a pass.
   */
  lemma {:induction false} WinnersInOrder(xs: seq<Student>, r: nat, passes: (nat, nat) -> bool)
    ensures |Winners(xs, r, passes)| == |WinnerPositions(|xs|, r, passes)|
    ensures forall j :: 0 <= j < |WinnerPositions(|xs|, r, passes)| ==>
      WinnerPositions(|xs|, r, passes)[j] < |xs| &&
      passes(r, WinnerPositions(|xs|, r, passes)[j]) &&
      Winners(xs, r, passes)[j] == xs[WinnerPositions(|xs|, r, passes)[j]]
    ensures forall j, k :: 0 <= j < k < |WinnerPositions(|xs|, r, passes)| ==>
      WinnerPositions(|xs|, r, passes)[j] < WinnerPositions(|xs|, r, passes)[k]
    ensures forall i :: 0 <= i < |xs| && passes(r, i) ==> i in WinnerPositions(|xs|, r, passes)
  {
    if xs != [] {
      var init := xs[..|xs| - 1];
      WinnersInOrder(init, r, passes);
      assert |init| == |xs| - 1;
      forall j | 0 <= j < |WinnerPositions(|init|, r, passes)|
        ensures xs[WinnerPositions(|init|, r, passes)[j]] == init[WinnerPositions(|init|, r, passes)[j]]
      {
      }
    }
  }

  /** The queue after the first `k` rounds: everyone, then the winners of each round in turn. */
  function Survivors(students: seq<Student>, k: nat, passes: (nat, nat) -> bool): seq<Student>
  {
    if k == 0 then students else Winners(Survivors(students, k - 1, passes), k - 1, passes)
  }

  /** `roundsData` after the first `k` rounds of `rounds`. */
  function Stats(students: seq<Student>, rounds: seq<Round>, k: nat, passes: (nat, nat) -> bool): (r: seq<RoundStat>)
    requires k <= |rounds|
    ensures |r| == k
    ensures forall j :: 0 <= j < k ==>
      r[j].count == |Survivors(students, j, passes)| && r[j].passed == |Survivors(students, j + 1, passes)|
  {
    if k == 0 then []
    else
      var prev := Stats(students, rounds, k - 1, passes);
      var r := prev + [RoundStat(rounds[k - 1].name, |Survivors(students, k - 1, passes)|, |Survivors(students, k, passes)|)];
      assert forall j :: 0 <= j < k ==>
        r[j].count == |Survivors(students, j, passes)| && r[j].passed == |Survivors(students, j + 1, passes)| by {
        forall j | 0 <= j < k
          ensures r[j].count == |Survivors(students, j, passes)| && r[j].passed == |Survivors(students, j + 1, passes)|
        {
          if j < k - 1 {
            assert r[j] == prev[j];
          }
        }
      }
      r
  }

  /** At most the students who entered a round pass it. */
  lemma {:induction false} WinnersAtMost(xs: seq<Student>, r: nat, passes: (nat, nat) -> bool)
    ensures |Winners(xs, r, passes)| <= |xs|
  {
    if xs != [] {
      WinnersAtMost(xs[..|xs| - 1], r, passes);
    }
  }

  /**
   * One statistics entry per round, in round order, named after the round;
   * the first round sees every student; each round's entrants are the
   * previous round's passers; nobody passes who did not enter.
   */
  lemma {:induction false} StatsProperties(students: seq<Student>, rounds: seq<Round>, k: nat, passes: (nat, nat) -> bool)
    requires k <= |rounds|
    ensures |Stats(students, rounds, k, passes)| == k
    ensures forall j :: 0 <= j < k ==> Stats(students, rounds, k, passes)[j].round == rounds[j].name
    ensures k > 0 ==> Stats(students, rounds, k, passes)[0].count == |students|
    ensures forall j :: 0 <= j < k ==>
      0 <= Stats(students, rounds, k, passes)[j].passed <= Stats(students, rounds, k, passes)[j].count
    ensures forall j :: 0 < j < k ==>
      Stats(students, rounds, k, passes)[j].count == Stats(students, rounds, k, passes)[j - 1].passed
  {
    if k > 0 {
      StatsProperties(students, rounds, k - 1, passes);
      WinnersAtMost(Survivors(students, k - 1, passes), k - 1, passes);
      var prev := Stats(students, rounds, k - 1, passes);
      var s := Stats(students, rounds, k, passes);
      assert s == prev + [s[k - 1]];
      forall j | 0 <= j < k - 1 ensures s[j] == prev[j] {
      }
    }
  }

  /** A round that nobody enters has nobody passing, and so have all later rounds. */
  lemma EmptyRoundStaysEmpty(students: seq<Student>, k: nat, passes: (nat, nat) -> bool)
    requires Survivors(students, k, passes) == []
    ensures Survivors(students, k + 1, passes) == []
  {
  }

  /** `runSimulation(company)`: enqueue every student, then run each of the drive's rounds once. */
  method RunSimulation(students: seq<Student>, company: Company, passes: (nat, nat) -> bool)
    returns (roundsData: seq<RoundStat>)
    ensures roundsData == Stats(students, DriveRounds(company), |DriveRounds(company)|, passes)
  {
    var queue := new RecruitmentQueue<Student>();
    for i := 0 to |students|
      invariant queue.items == students[..i]
    {
      queue.Enqueue(students[i]);
      assert students[..i + 1] == students[..i] + [students[i]];
    }
    assert students[..|students|] == students;
    roundsData := [];
    var rounds := DriveRounds(company);
    var currentRoundIndex := 0;
    while currentRoundIndex < |rounds|
      invariant 0 <= currentRoundIndex <= |rounds|
      invariant queue.items == Survivors(students, currentRoundIndex, passes)
      invariant roundsData == Stats(students, rounds, currentRoundIndex, passes)
    {
      var round := rounds[currentRoundIndex];
      var initialCount := queue.Size();
      var winners := RunRound(queue, currentRoundIndex, passes);
      for w := 0 to |winners|
        invariant queue.items == winners[..w]
      {
        queue.Enqueue(winners[w]);
        assert winners[..w + 1] == winners[..w] + [winners[w]];
      }
      assert winners[..|winners|] == winners;
      roundsData := roundsData + [RoundStat(round.name, initialCount, |winners|)];
      currentRoundIndex := currentRoundIndex + 1;
    }
  }

  /** The body of one round: dequeue the `size` students present at the start, keeping those who pass. */
  method RunRound(queue: RecruitmentQueue<Student>, r: nat, passes: (nat, nat) -> bool) returns (winners: seq<Student>)
    modifies queue
    ensures queue.items == []
    ensures winners == Winners(old(queue.items), r, passes)
  {
    ghost var entrants := queue.items;
    winners := [];
    var size := queue.Size();
    for i := 0 to size
      invariant queue.items == entrants[i..]
      invariant winners == Winners(entrants[..i], r, passes)
    {
      var student := queue.Dequeue();
      assert entrants[..i + 1][..i] == entrants[..i];
      if student.Some? {
        if passes(r, i) {
          winners := winners + [student.value];
        }
      }
    }
    assert entrants[..size] == entrants;
  }

  /** `[...companies].sort(by arrival time)`: a reordered copy, earliest arrival first. */
  function SortedCompanies(companies: seq<Company>, timeOf: string -> int): (r: seq<Company>)
    ensures multiset(r) == multiset(companies)
    ensures forall i, j :: 0 <= i < j < |r| ==> timeOf(r[i].arrivalDate) <= timeOf(r[j].arrivalDate)
  {
    var r := SortByKey(companies, (c: Company) => timeOf(c.arrivalDate) as real);
    assert SortedBy(r, (c: Company) => timeOf(c.arrivalDate) as real);
    r
  }
}

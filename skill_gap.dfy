/**
 * Skill gap analysis (utils/dsa.ts, feature 7): supply and demand counts per
 * upper-cased skill name, a salary sum and count per skill over the students
 * whose package is truthy, then a gap table (every skill seen, by demand,
 * top 10) and a value table (skills by average package, top 5).
 *
 * A JavaScript `Map` iterates its keys in insertion order; the method keeps
 * that order beside each map, as the sequence of keys in the order they were
 * first set. Specified, that order is the first occurrences of the keys in
 * the order the loops meet them.
 */
module SkillGap {
  import opened Types
  import opened Text
  import opened Sequences
  import opened Tally

  datatype GapRow = GapRow(name: string, demand: int, supply: int, gap: int)

  datatype ValueRow = ValueRow(name: string, avgPackage: real)

  /** `skills.map(s => s.toUpperCase())`. */
  function UpperAll(skills: seq<string>): (r: seq<string>)
    ensures |r| == |skills|
    ensures forall i :: 0 <= i < |skills| ==> r[i] == Upper(skills[i])
  {
    if skills == [] then [] else UpperAll(skills[..|skills| - 1]) + [Upper(skills[|skills| - 1])]
  }

  /** Every upper-cased student skill, student by student, in the order the supply loop meets them. */
  function SupplyKeys(students: seq<Student>): seq<string>
  {
    if students == [] then []
    else SupplyKeys(students[..|students| - 1]) + UpperAll(students[|students| - 1].skills)
  }

  /** The same, restricted to the students whose package is truthy (present and not 0). */
  function PaidKeys(students: seq<Student>): seq<string>
  {
    if students == [] then []
    else
      var last := students[|students| - 1];
      PaidKeys(students[..|students| - 1]) + (if HasPackage(last) then UpperAll(last.skills) else [])
  }

  /** Every upper-cased required skill, company by company. */
  function DemandKeys(companies: seq<Company>): seq<string>
  {
    if companies == [] then []
    else DemandKeys(companies[..|companies| - 1]) + UpperAll(companies[|companies| - 1].requiredSkills)
  }

  /** `skillSalarySum` once every student has been visited. */
  function SalarySums(students: seq<Student>): map<string, real>
  {
    if students == [] then map[]
    else
      var last := students[|students| - 1];
      var m := SalarySums(students[..|students| - 1]);
      if HasPackage(last) then AddWeight(m, UpperAll(last.skills), last.package.value) else m
  }

  /** How many times the upper-cased `skills` name `k`. */
  function Occurrences(skills: seq<string>, k: string): nat
  {
    multiset(UpperAll(skills))[k]
  }

  /**
   * Reference definitions of the salary figures: over the students with a
   * truthy package, each one's package counted once per skill of theirs that
   * upper-cases to `k`, and the number of such skills.
   */
  function PaidTotal(students: seq<Student>, k: string): real
  {
    if students == [] then 0.0
    else
      var last := students[|students| - 1];
      PaidTotal(students[..|students| - 1], k) + (if HasPackage(last) then Scale(last.package.value, Occurrences(last.skills, k)) else 0.0)
  }

  function PaidCount(students: seq<Student>, k: string): nat
  {
    if students == [] then 0
    else
      var last := students[|students| - 1];
      PaidCount(students[..|students| - 1], k) + (if HasPackage(last) then Occurrences(last.skills, k) else 0)
  }

  /** `allSkills.map(skill => ({ name, demand, supply, gap }))`. */
  function GapRows(allSkills: seq<string>, supply: map<string, int>, demand: map<string, int>): (r: seq<GapRow>)
    ensures |r| == |allSkills|
    ensures forall i :: 0 <= i < |r| ==> r[i] == GapRow(allSkills[i], Get(demand, allSkills[i]), Get(supply, allSkills[i]),
                                                         Get(demand, allSkills[i]) - Get(supply, allSkills[i]))
  {
    seq(|allSkills|, i requires 0 <= i < |allSkills| =>
      GapRow(allSkills[i], Get(demand, allSkills[i]), Get(supply, allSkills[i]), Get(demand, allSkills[i]) - Get(supply, allSkills[i])))
  }

  /** `Array.from(skillSalarySum.keys()).map(skill => ({ name, avgPackage: sum / count }))`. */
  function ValueRows(keys: seq<string>, sums: map<string, real>, counts: map<string, int>): (r: seq<ValueRow>)
    requires forall k :: k in keys ==> Get(counts, k) > 0
    ensures |r| == |keys|
    ensures forall i :: 0 <= i < |r| ==> r[i] == ValueRow(keys[i], GetSum(sums, keys[i]) / (Get(counts, keys[i]) as real))
  {
    seq(|keys|, i requires 0 <= i < |keys| => ValueRow(keys[i], GetSum(sums, keys[i]) / (Get(counts, keys[i]) as real)))
  }

  /** The sort key of `.sort((a, b) => b.demand - a.demand)`: demand, negated for an ascending sort. */
  function NegDemand(row: GapRow): real
  {
    -(row.demand as real)
  }

  function NegAvg(row: ValueRow): real
  {
    -row.avgPackage
  }

  /** The skills of the gap table: the supply keys, then the demand keys not already among them. */
  function AllSkills(students: seq<Student>, companies: seq<Company>): (r: seq<string>)
    ensures forall k :: k in r <==> k in SupplyKeys(students) || k in DemandKeys(companies)
    ensures NoDuplicates(r)
  {
    var both := Distinct(SupplyKeys(students)) + Distinct(DemandKeys(companies));
    DistinctMembers(both, "");
    assert forall k :: k in Distinct(both) <==> k in SupplyKeys(students) || k in DemandKeys(companies) by {
      forall k ensures k in Distinct(both) <==> k in SupplyKeys(students) || k in DemandKeys(companies) {
        DistinctMembers(both, k);
        DistinctMembers(SupplyKeys(students), k);
        DistinctMembers(DemandKeys(companies), k);
      }
    }
    Distinct(both)
  }

  /** `gapData`. */
  function GapTable(students: seq<Student>, companies: seq<Company>): (r: seq<GapRow>)
    ensures |r| <= 10
    ensures forall i, j :: 0 <= i < j < |r| ==> r[i].demand >= r[j].demand
  {
    var rows := GapRows(AllSkills(students, companies), AddCounts(map[], SupplyKeys(students)), AddCounts(map[], DemandKeys(companies)));
    var sorted := SortByKey(rows, NegDemand);
    assert SortedBy(sorted, NegDemand);
    Take(sorted, 10)
  }

  /** `highValueSkills`. */
  function ValueTable(students: seq<Student>): (r: seq<ValueRow>)
    ensures |r| <= 5
    ensures forall i, j :: 0 <= i < j < |r| ==> r[i].avgPackage >= r[j].avgPackage
  {
    var keys := Distinct(PaidKeys(students));
    var counts := AddCounts(map[], PaidKeys(students));
    assert forall k :: k in keys ==> Get(counts, k) > 0 by {
      forall k | k in keys ensures Get(counts, k) > 0 {
        DistinctMembers(PaidKeys(students), k);
        AddCountsCounts(map[], PaidKeys(students), k);
      }
    }
    var sorted := SortByKey(ValueRows(keys, SalarySums(students), counts), NegAvg);
    assert SortedBy(sorted, NegAvg);
    Take(sorted, 5)
  }

  lemma AddCountsSnoc(m: map<string, int>, ks: seq<string>, k: string)
    ensures AddCounts(m, ks + [k]) == Bump(AddCounts(m, ks), k)
  {
    assert (ks + [k])[..|ks|] == ks;
  }

  lemma AddWeightSnoc(m: map<string, real>, ks: seq<string>, k: string, w: real)
    ensures AddWeight(m, ks + [k], w) == AddTo(AddWeight(m, ks, w), k, w)
  {
    assert (ks + [k])[..|ks|] == ks;
  }

  lemma UpperAllSnoc(skills: seq<string>, j: nat)
    requires j < |skills|
    ensures UpperAll(skills[..j + 1]) == UpperAll(skills[..j]) + [Upper(skills[j])]
  {
    assert skills[..j + 1][..j] == skills[..j];
  }

  /** The salary map holds exactly the keys of the paid students' skills. */
  lemma {:induction false} SalarySumsKeys(students: seq<Student>, k: string)
    ensures k in SalarySums(students) <==> k in PaidKeys(students)
  {
    if students != [] {
      var init, last := students[..|students| - 1], students[|students| - 1];
      SalarySumsKeys(init, k);
      if HasPackage(last) {
        AddWeightSums(SalarySums(init), UpperAll(last.skills), last.package.value, k);
      }
    }
  }

  /** One student visited by the supply loop: the student's skills extend the key lists. */
  lemma StudentStep(students: seq<Student>, i: nat)
    requires i < |students|
    ensures SupplyKeys(students[..i + 1]) == SupplyKeys(students[..i]) + UpperAll(students[i].skills)
    ensures PaidKeys(students[..i + 1]) == if HasPackage(students[i]) then PaidKeys(students[..i]) + UpperAll(students[i].skills) else PaidKeys(students[..i])
    ensures SalarySums(students[..i + 1]) ==
      if HasPackage(students[i]) then AddWeight(SalarySums(students[..i]), UpperAll(students[i].skills), students[i].package.value)
      else SalarySums(students[..i])
  {
    assert students[..i + 1][..i] == students[..i];
  }

  lemma CompanyStep(companies: seq<Company>, i: nat)
    requires i < |companies|
    ensures DemandKeys(companies[..i + 1]) == DemandKeys(companies[..i]) + UpperAll(companies[i].requiredSkills)
  {
    assert companies[..i + 1][..i] == companies[..i];
  }

  /**
   * One more upper-cased skill `ups[j]` met by a loop: its count is bumped,
   * and it is appended to the key order when it is new.
   */
  lemma KeyStep(counts: map<string, int>, order: seq<string>, before: seq<string>, ups: seq<string>, j: nat, sk: string)
    requires j < |ups| && sk == ups[j]
    requires counts == AddCounts(map[], before + ups[..j]) && order == Distinct(before + ups[..j])
    ensures counts[sk := Get(counts, sk) + 1] == AddCounts(map[], before + ups[..j + 1])
    ensures (if sk in order then order else order + [sk]) == Distinct(before + ups[..j + 1])
  {
    assert before + ups[..j + 1] == (before + ups[..j]) + [sk];
    AddCountsSnoc(map[], before + ups[..j], sk);
    DistinctSnoc(before + ups[..j], sk);
  }

  /** The maps the supply loop fills, each with the order in which its keys were first set. */
  datatype SupplyMaps = SupplyMaps(
    studentSkills: map<string, int>, studentOrder: seq<string>,
    skillSalarySum: map<string, real>, skillCountForSalary: map<string, int>, salaryOrder: seq<string>)

  /** The maps hold the tallies of the supply keys and paid keys met so far, and the salary sums `sums`. */
  ghost predicate Tallied(t: SupplyMaps, supplyKeys: seq<string>, paidKeys: seq<string>, sums: map<string, real>)
  {
    && t.studentSkills == AddCounts(map[], supplyKeys)
    && t.studentOrder == Distinct(supplyKeys)
    && t.skillSalarySum == sums
    && t.skillCountForSalary == AddCounts(map[], paidKeys)
    && t.salaryOrder == Distinct(paidKeys)
  }

  /**
   * The callback of the inner `s.skills.forEach`, for one upper-cased skill
   * `sk`: bump its supply and, when the student is paid, add the package `w`
   * to its salary sum and bump its salary count.
   */
  function TallySkill(t: SupplyMaps, sk: string, paid: bool, w: real): SupplyMaps
  {
    var t1 := t.(studentSkills := Bump(t.studentSkills, sk),
                 studentOrder := if sk in t.studentOrder then t.studentOrder else t.studentOrder + [sk]);
    if paid then
      t1.(skillSalarySum := AddTo(t.skillSalarySum, sk, w),
          skillCountForSalary := Bump(t.skillCountForSalary, sk),
          salaryOrder := if sk in t.salaryOrder then t.salaryOrder else t.salaryOrder + [sk])
    else t1
  }

  /** The callback applied to the keys `ks` in turn. */
  ghost function TallySkills(t: SupplyMaps, ks: seq<string>, paid: bool, w: real): SupplyMaps
  {
    if ks == [] then t else TallySkill(TallySkills(t, ks[..|ks| - 1], paid, w), ks[|ks| - 1], paid, w)
  }

  lemma TallySkillsSnoc(t: SupplyMaps, ups: seq<string>, j: nat, paid: bool, w: real)
    requires j < |ups|
    ensures TallySkills(t, ups[..j + 1], paid, w) == TallySkill(TallySkills(t, ups[..j], paid, w), ups[j], paid, w)
  {
    assert ups[..j + 1][..j] == ups[..j];
  }

  /**
   * Running the callback over the keys `ks` extends the tallies by `ks`: the
   * supply counts and key order always, the salary sums, counts and key
   * order when the student is paid.
   */
  lemma {:induction false} TallySkillsTallied(t0: SupplyMaps, ks: seq<string>, paid: bool, w: real,
      supplyBefore: seq<string>, paidBefore: seq<string>, sumsBefore: map<string, real>)
    requires Tallied(t0, supplyBefore, paidBefore, sumsBefore)
    ensures Tallied(TallySkills(t0, ks, paid, w), supplyBefore + ks, if paid then paidBefore + ks else paidBefore,
                    if paid then AddWeight(sumsBefore, ks, w) else sumsBefore)
  {
    if ks == [] {
      assert supplyBefore + ks == supplyBefore && paidBefore + ks == paidBefore;
    } else {
      var init, k := ks[..|ks| - 1], ks[|ks| - 1];
      TallySkillsTallied(t0, init, paid, w, supplyBefore, paidBefore, sumsBefore);
      assert ks == init + [k];
      assert supplyBefore + ks == (supplyBefore + init) + [k];
      assert paidBefore + ks == (paidBefore + init) + [k];
      TallySkillTallied(TallySkills(t0, init, paid, w), k, paid, w, supplyBefore + init,
        if paid then paidBefore + init else paidBefore, if paid then AddWeight(sumsBefore, init, w) else sumsBefore);
      if paid {
        AddWeightSnoc(sumsBefore, init, k, w);
      }
    }
  }

  /** One callback extends the tallies by its key. */
  lemma TallySkillTallied(t: SupplyMaps, k: string, paid: bool, w: real,
      supplyKeys: seq<string>, paidKeys: seq<string>, sums: map<string, real>)
    requires Tallied(t, supplyKeys, paidKeys, sums)
    ensures Tallied(TallySkill(t, k, paid, w), supplyKeys + [k], if paid then paidKeys + [k] else paidKeys,
                    if paid then AddTo(sums, k, w) else sums)
  {
    AddCountsSnoc(map[], supplyKeys, k);
    DistinctSnoc(supplyKeys, k);
    AddCountsSnoc(map[], paidKeys, k);
    DistinctSnoc(paidKeys, k);
  }

  /**
   * The inner `s.skills.forEach` of the supply loop, for one student: the
   * callback run over the student's skills, each upper-cased.
   */
  method TallyStudent(s: Student, t0: SupplyMaps, ghost supplyBefore: seq<string>, ghost paidBefore: seq<string>,
                      ghost sumsBefore: map<string, real>) returns (t: SupplyMaps)
    requires Tallied(t0, supplyBefore, paidBefore, sumsBefore)
    ensures HasPackage(s) ==> Tallied(t, supplyBefore + UpperAll(s.skills), paidBefore + UpperAll(s.skills),
                                      AddWeight(sumsBefore, UpperAll(s.skills), s.package.value))
    ensures !HasPackage(s) ==> Tallied(t, supplyBefore + UpperAll(s.skills), paidBefore, sumsBefore)
  {
    t := t0;
    ghost var ups := UpperAll(s.skills);
    ghost var w := if HasPackage(s) then s.package.value else 0.0;
    assert ups[..0] == [];
    for j := 0 to |s.skills|
      invariant t == TallySkills(t0, ups[..j], HasPackage(s), w)
    {
      var sk := Upper(s.skills[j]);
      assert ups[j] == sk;
      TallySkillsSnoc(t0, ups, j, HasPackage(s), w);
      t := t.(studentSkills := Bump(t.studentSkills, sk),
              studentOrder := if sk in t.studentOrder then t.studentOrder else t.studentOrder + [sk]);
      if HasPackage(s) {
        t := t.(skillSalarySum := AddTo(t.skillSalarySum, sk, s.package.value),
                skillCountForSalary := Bump(t.skillCountForSalary, sk),
                salaryOrder := if sk in t.salaryOrder then t.salaryOrder else t.salaryOrder + [sk]);
      }
    }
    assert ups[..|s.skills|] == ups;
    TallySkillsTallied(t0, ups, HasPackage(s), w, supplyBefore, paidBefore, sumsBefore);
  }

  /**
   * The supply loop of `analyzeSkillGap`: every student's skills tallied in
   * turn, giving the supply counts, the salary sums and the salary counts.
   */
  method TallySupply(students: seq<Student>) returns (t: SupplyMaps)
    ensures t.studentSkills == AddCounts(map[], SupplyKeys(students))
    ensures t.studentOrder == Distinct(SupplyKeys(students))
    ensures t.skillSalarySum == SalarySums(students)
    ensures t.skillCountForSalary == AddCounts(map[], PaidKeys(students))
    ensures t.salaryOrder == Distinct(PaidKeys(students))
  {
    t := SupplyMaps(map[], [], map[], map[], []);
    for i := 0 to |students|
      invariant Tallied(t, SupplyKeys(students[..i]), PaidKeys(students[..i]), SalarySums(students[..i]))
    {
      StudentStep(students, i);
      t := TallyStudent(students[i], t, SupplyKeys(students[..i]), PaidKeys(students[..i]), SalarySums(students[..i]));
    }
    assert students[..|students|] == students;
  }

  /** The demand loop of `analyzeSkillGap`: bump the demand of every upper-cased required skill of every company. */
  method TallyDemand(companies: seq<Company>) returns (companySkills: map<string, int>, companyOrder: seq<string>)
    ensures companySkills == AddCounts(map[], DemandKeys(companies))
    ensures companyOrder == Distinct(DemandKeys(companies))
  {
    companySkills, companyOrder := map[], [];
    for i := 0 to |companies|
      invariant companySkills == AddCounts(map[], DemandKeys(companies[..i]))
      invariant companyOrder == Distinct(DemandKeys(companies[..i]))
    {
      var c := companies[i];
      ghost var demandBefore, ups := DemandKeys(companies[..i]), UpperAll(c.requiredSkills);
      assert demandBefore + ups[..0] == demandBefore;
      for j := 0 to |c.requiredSkills|
        invariant companySkills == AddCounts(map[], demandBefore + ups[..j])
        invariant companyOrder == Distinct(demandBefore + ups[..j])
      {
        var sk := Upper(c.requiredSkills[j]);
        assert sk == ups[j];
        KeyStep(companySkills, companyOrder, demandBefore, ups, j, sk);
        companyOrder := if sk in companyOrder then companyOrder else companyOrder + [sk];
        companySkills := companySkills[sk := Get(companySkills, sk) + 1];
      }
      assert ups[..|c.requiredSkills|] == ups;
      CompanyStep(companies, i);
    }
    assert companies[..|companies|] == companies;
  }

  /** `analyzeSkillGap(students, companies)`: the supply and demand loops, then the two tables. */
  method AnalyzeSkillGap(students: seq<Student>, companies: seq<Company>)
    returns (gapData: seq<GapRow>, highValueSkills: seq<ValueRow>)
    ensures gapData == GapTable(students, companies)
    ensures highValueSkills == ValueTable(students)
  {
    var supply := TallySupply(students);
    var companySkills, companyOrder := TallyDemand(companies);

    var allSkills := Distinct(supply.studentOrder + companyOrder);
    gapData := Take(SortByKey(GapRows(allSkills, supply.studentSkills, companySkills), NegDemand), 10);

    forall k | k in supply.salaryOrder ensures Get(supply.skillCountForSalary, k) > 0 {
      DistinctMembers(PaidKeys(students), k);
      AddCountsCounts(map[], PaidKeys(students), k);
    }
    highValueSkills := Take(SortByKey(ValueRows(supply.salaryOrder, supply.skillSalarySum, supply.skillCountForSalary), NegAvg), 5);
  }

  /** The supply and demand keys are the upper-cased skills of some student and some company. */
  lemma {:induction false} SupplyKeysFrom(students: seq<Student>, k: string)
    requires k in SupplyKeys(students)
    ensures exists i, j :: 0 <= i < |students| && 0 <= j < |students[i].skills| && Upper(students[i].skills[j]) == k
  {
    var init, last := students[..|students| - 1], students[|students| - 1];
    if k in SupplyKeys(init) {
      SupplyKeysFrom(init, k);
      var i, j :| 0 <= i < |init| && 0 <= j < |init[i].skills| && Upper(init[i].skills[j]) == k;
      assert students[i] == init[i];
    } else {
      var j :| 0 <= j < |last.skills| && UpperAll(last.skills)[j] == k;
      assert Upper(students[|students| - 1].skills[j]) == k;
    }
  }

  lemma {:induction false} DemandKeysFrom(companies: seq<Company>, k: string)
    requires k in DemandKeys(companies)
    ensures exists i, j :: 0 <= i < |companies| && 0 <= j < |companies[i].requiredSkills| && Upper(companies[i].requiredSkills[j]) == k
  {
    var init, last := companies[..|companies| - 1], companies[|companies| - 1];
    if k in DemandKeys(init) {
      DemandKeysFrom(init, k);
      var i, j :| 0 <= i < |init| && 0 <= j < |init[i].requiredSkills| && Upper(init[i].requiredSkills[j]) == k;
      assert companies[i] == init[i];
    } else {
      var j :| 0 <= j < |last.requiredSkills| && UpperAll(last.requiredSkills)[j] == k;
      assert Upper(companies[|companies| - 1].requiredSkills[j]) == k;
    }
  }

  /** The supply of `k` is the number of student skills that upper-case to `k`. */
  lemma {:induction false} SupplyCounts(students: seq<Student>, k: string)
    ensures Get(AddCounts(map[], SupplyKeys(students)), k) == multiset(SupplyKeys(students))[k]
  {
    AddCountsCounts(map[], SupplyKeys(students), k);
  }

  /** A row built from count maps carries the counts of its name, and its gap is their difference. */
  lemma GapRowMeaning(skills: seq<string>, supplyKeys: seq<string>, demandKeys: seq<string>, row: GapRow)
    requires row in GapRows(skills, AddCounts(map[], supplyKeys), AddCounts(map[], demandKeys))
    ensures row.name in skills
    ensures row.gap == row.demand - row.supply
    ensures row.demand == multiset(demandKeys)[row.name] && row.supply == multiset(supplyKeys)[row.name]
  {
    var rows := GapRows(skills, AddCounts(map[], supplyKeys), AddCounts(map[], demandKeys));
    var p :| 0 <= p < |rows| && rows[p] == row;
    AddCountsCounts(map[], supplyKeys, row.name);
    AddCountsCounts(map[], demandKeys, row.name);
  }

  /**
   * The gap table: at most ten rows, by non-increasing demand; each row's gap
   * is its demand minus its supply, those being the number of company and of
   * student skills that upper-case to its name; and every name is a skill of
   * some student or some company.
   */
  lemma GapTableProperties(students: seq<Student>, companies: seq<Company>)
    ensures |GapTable(students, companies)| <= 10
    ensures forall i, j :: 0 <= i < j < |GapTable(students, companies)| ==>
      GapTable(students, companies)[i].demand >= GapTable(students, companies)[j].demand
    ensures forall row :: row in GapTable(students, companies) ==>
      && row.gap == row.demand - row.supply
      && row.demand == multiset(DemandKeys(companies))[row.name]
      && row.supply == multiset(SupplyKeys(students))[row.name]
      && (row.name in SupplyKeys(students) || row.name in DemandKeys(companies))
  {
    var skills := AllSkills(students, companies);
    var rows := GapRows(skills, AddCounts(map[], SupplyKeys(students)), AddCounts(map[], DemandKeys(companies)));
    var sorted := SortByKey(rows, NegDemand);
    var table := Take(sorted, 10);
    assert SortedBy(sorted, NegDemand);
    forall row | row in table
      ensures row.gap == row.demand - row.supply
      ensures row.demand == multiset(DemandKeys(companies))[row.name]
      ensures row.supply == multiset(SupplyKeys(students))[row.name]
      ensures row.name in SupplyKeys(students) || row.name in DemandKeys(companies)
    {
      assert row in multiset(sorted);
      assert row in multiset(rows);
      GapRowMeaning(skills, SupplyKeys(students), DemandKeys(companies), row);
      DistinctMembers(Distinct(SupplyKeys(students)) + Distinct(DemandKeys(companies)), row.name);
      DistinctMembers(SupplyKeys(students), row.name);
      DistinctMembers(DemandKeys(companies), row.name);
    }
  }

  /**
   * Top ten: when a skill is left out of the gap table, the table is full and
   * the skill's demand is at most that of every listed row.
   */
  lemma GapTableIsTopTen(students: seq<Student>, companies: seq<Company>, k: string)
    requires k in AllSkills(students, companies)
    requires forall row :: row in GapTable(students, companies) ==> row.name != k
    ensures |GapTable(students, companies)| == 10
    ensures forall row :: row in GapTable(students, companies) ==> row.demand >= multiset(DemandKeys(companies))[k]
  {
    var skills := AllSkills(students, companies);
    var supply, demand := AddCounts(map[], SupplyKeys(students)), AddCounts(map[], DemandKeys(companies));
    var rows := GapRows(skills, supply, demand);
    var sorted := SortByKey(rows, NegDemand);
    var table := Take(sorted, 10);
    var p :| 0 <= p < |skills| && skills[p] == k;
    assert rows[p] in multiset(rows);
    assert rows[p] in multiset(sorted);
    var q :| 0 <= q < |sorted| && sorted[q] == rows[p];
    assert sorted[q] !in table;
    AddCountsCounts(map[], DemandKeys(companies), k);
    TakeSortedBelow(sorted, NegDemand, 10, q);
  }

  /** No skill has two rows in the gap table: the rows come from the keys of a map. */
  lemma GapTableNamesDistinct(students: seq<Student>, companies: seq<Company>)
    ensures forall i, j :: 0 <= i < j < |GapTable(students, companies)| ==>
      GapTable(students, companies)[i].name != GapTable(students, companies)[j].name
  {
    var skills := AllSkills(students, companies);
    var rows := GapRows(skills, AddCounts(map[], SupplyKeys(students)), AddCounts(map[], DemandKeys(companies)));
    var sorted := SortByKey(rows, NegDemand);
    var name := (row: GapRow) => row.name;
    assert forall i, j :: 0 <= i < j < |rows| ==> name(rows[i]) != name(rows[j]) by {
      forall i, j | 0 <= i < j < |rows| ensures name(rows[i]) != name(rows[j]) {
        assert name(rows[i]) == skills[i] && name(rows[j]) == skills[j];
      }
    }
    PermutationKeepsNamesDistinct(rows, sorted, name);
    var table := Take(sorted, 10);
    forall i, j | 0 <= i < j < |table| ensures table[i].name != table[j].name {
      assert name(sorted[i]) != name(sorted[j]);
    }
  }

  /** The salary sum and count the loops build agree with the reference definitions. */
  lemma {:induction false} SalaryFigures(students: seq<Student>, k: string)
    ensures GetSum(SalarySums(students), k) == PaidTotal(students, k)
    ensures Get(AddCounts(map[], PaidKeys(students)), k) == PaidCount(students, k)
  {
    AddCountsCounts(map[], PaidKeys(students), k);
    PaidCountIsOccurrences(students, k);
    if students != [] {
      var init, last := students[..|students| - 1], students[|students| - 1];
      SalaryFigures(init, k);
      if HasPackage(last) {
        AddWeightSums(SalarySums(init), UpperAll(last.skills), last.package.value, k);
      }
    }
  }

  lemma {:induction false} PaidCountIsOccurrences(students: seq<Student>, k: string)
    ensures multiset(PaidKeys(students))[k] == PaidCount(students, k)
  {
    if students != [] {
      PaidCountIsOccurrences(students[..|students| - 1], k);
    }
  }

  /** Each row of the value table is a skill of some paid student, with its average package. */
  lemma ValueRowFigures(students: seq<Student>, row: ValueRow)
    requires row in ValueTable(students)
    ensures PaidCount(students, row.name) > 0
    ensures row.avgPackage == PaidTotal(students, row.name) / (PaidCount(students, row.name) as real)
  {
    var keys := Distinct(PaidKeys(students));
    var counts := AddCounts(map[], PaidKeys(students));
    forall k | k in keys ensures Get(counts, k) > 0 {
      DistinctMembers(PaidKeys(students), k);
      AddCountsCounts(map[], PaidKeys(students), k);
    }
    var rows := ValueRows(keys, SalarySums(students), counts);
    var sorted := SortByKey(rows, NegAvg);
    assert row in multiset(sorted);
    assert row in multiset(rows);
    var p :| 0 <= p < |rows| && rows[p] == row;
    SalaryFigures(students, row.name);
  }

  /**
   * The value table: at most five rows, by non-increasing average package;
   * each row's average is the paid total over the paid count for its skill,
   * counting only students whose package is truthy, and that count is positive.
   */
  lemma ValueTableProperties(students: seq<Student>)
    ensures |ValueTable(students)| <= 5
    ensures forall i, j :: 0 <= i < j < |ValueTable(students)| ==>
      ValueTable(students)[i].avgPackage >= ValueTable(students)[j].avgPackage
    ensures forall row :: row in ValueTable(students) ==>
      PaidCount(students, row.name) > 0 &&
      row.avgPackage == PaidTotal(students, row.name) / (PaidCount(students, row.name) as real)
  {
    var keys := Distinct(PaidKeys(students));
    var counts := AddCounts(map[], PaidKeys(students));
    forall k | k in keys ensures Get(counts, k) > 0 {
      DistinctMembers(PaidKeys(students), k);
      AddCountsCounts(map[], PaidKeys(students), k);
    }
    assert SortedBy(SortByKey(ValueRows(keys, SalarySums(students), counts), NegAvg), NegAvg);
    forall row | row in ValueTable(students)
      ensures PaidCount(students, row.name) > 0
      ensures row.avgPackage == PaidTotal(students, row.name) / (PaidCount(students, row.name) as real)
    {
      ValueRowFigures(students, row);
    }
  }

  /** No skill has two rows in the value table. */
  lemma ValueTableNamesDistinct(students: seq<Student>)
    ensures forall i, j :: 0 <= i < j < |ValueTable(students)| ==>
      ValueTable(students)[i].name != ValueTable(students)[j].name
  {
    var keys := Distinct(PaidKeys(students));
    var counts := AddCounts(map[], PaidKeys(students));
    forall k | k in keys ensures Get(counts, k) > 0 {
      DistinctMembers(PaidKeys(students), k);
      AddCountsCounts(map[], PaidKeys(students), k);
    }
    var rows := ValueRows(keys, SalarySums(students), counts);
    var sorted := SortByKey(rows, NegAvg);
    var name := (row: ValueRow) => row.name;
    DistinctMembers(PaidKeys(students), "");
    assert forall i, j :: 0 <= i < j < |rows| ==> name(rows[i]) != name(rows[j]) by {
      forall i, j | 0 <= i < j < |rows| ensures name(rows[i]) != name(rows[j]) {
        assert name(rows[i]) == keys[i] && name(rows[j]) == keys[j];
      }
    }
    PermutationKeepsNamesDistinct(rows, sorted, name);
    var table := Take(sorted, 5);
    forall i, j | 0 <= i < j < |table| ensures table[i].name != table[j].name {
      assert name(sorted[i]) != name(sorted[j]);
    }
  }

  /**
   * Top five: when a skill of a paid student is left out of the value table,
   * the table is full and every listed skill averages at least as much.
   */
  lemma ValueTableIsTopFive(students: seq<Student>, k: string)
    requires k in PaidKeys(students)
    requires forall row :: row in ValueTable(students) ==> row.name != k
    ensures |ValueTable(students)| == 5
    ensures PaidCount(students, k) > 0
    ensures forall row :: row in ValueTable(students) ==>
      row.avgPackage >= PaidTotal(students, k) / (PaidCount(students, k) as real)
  {
    var keys := Distinct(PaidKeys(students));
    var counts := AddCounts(map[], PaidKeys(students));
    forall k' | k' in keys ensures Get(counts, k') > 0 {
      DistinctMembers(PaidKeys(students), k');
      AddCountsCounts(map[], PaidKeys(students), k');
    }
    var rows := ValueRows(keys, SalarySums(students), counts);
    var sorted := SortByKey(rows, NegAvg);
    var table := Take(sorted, 5);
    DistinctMembers(PaidKeys(students), k);
    var p :| 0 <= p < |keys| && keys[p] == k;
    assert rows[p] in multiset(rows);
    assert rows[p] in multiset(sorted);
    var q :| 0 <= q < |sorted| && sorted[q] == rows[p];
    assert sorted[q] !in table;
    TakeSortedBelow(sorted, NegAvg, 5, q);
    SalaryFigures(students, k);
  }

  /** A package of 0 is falsy: such a student adds nothing to the salary figures of any skill. */
  lemma ZeroPackageExcluded(students: seq<Student>, s: Student, k: string)
    requires s.package == Some(0.0)
    ensures PaidTotal(students + [s], k) == PaidTotal(students, k)
    ensures PaidCount(students + [s], k) == PaidCount(students, k)
  {
    assert (students + [s])[..|students|] == students;
  }
}

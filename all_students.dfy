/**
 * The student directory (components/AllStudents.tsx): the column sort with
 * its direction toggle, the add/edit form's reset and save, and the parsing
 * of the comma-separated skills field.
 *
 * The component's state hooks are the fields of `StudentDirectory`; each
 * handler is a method that sets them. `Date.now().toString()`, the id of a
 * new student, is a parameter. The two callbacks the component is given are
 * not called: saving returns which of them it calls, and with what.
 */
module AllStudents {
  import opened Types
  import opened Text
  import opened Sequences
  import opened MergeSort

  /** `sortConfig`: the column sorted on and its direction. */
  datatype SortConfig = SortConfig(key: SortKey, direction: Direction)

  /** `{ key: 'id', direction: 'asc' }`, the state before any click. */
  const InitialConfig := SortConfig(Id, Asc)

  /** The direction `handleSort(key)` picks: descending exactly on a second click of an ascending column. */
  function NextDirection(config: SortConfig, key: SortKey): (d: Direction)
    ensures config.key != key ==> d == Asc
    ensures config.key == key ==> d != config.direction
  {
    if config.key == key && config.direction == Asc then Desc else Asc
  }

  /** The sort configuration after a click on the header of `key`. */
  function Click(config: SortConfig, key: SortKey): (r: SortConfig)
    ensures r.key == key
    ensures r.direction == Desc <==> config == SortConfig(key, Asc)
  {
    SortConfig(key, NextDirection(config, key))
  }

  /** The configuration after `n` clicks in a row on the same header. */
  function ClickTimes(config: SortConfig, key: SortKey, n: nat): SortConfig
  {
    if n == 0 then config else Click(ClickTimes(config, key, n - 1), key)
  }

  /**
   * Clicking one header again and again alternates its direction: after `n`
   * clicks it is sorted on, descending on the clicks of one parity, which
   * depends on whether it was already the ascending column.
   */
  lemma {:induction false} RepeatedClicks(config: SortConfig, key: SortKey, n: nat)
    requires n > 0
    ensures ClickTimes(config, key, n).key == key
    ensures ClickTimes(config, key, n).direction == Desc <==>
      if config.key == key && config.direction == Asc then n % 2 == 1 else n % 2 == 0
  {
    if n > 1 {
      RepeatedClicks(config, key, n - 1);
    }
  }

  /** Two clicks on an ascending column bring it back to ascending. */
  lemma SameColumnTwice(key: SortKey)
    ensures Click(Click(SortConfig(key, Asc), key), key) == SortConfig(key, Asc)
  {
    RepeatedClicks(SortConfig(key, Asc), key, 2);
  }

  /** `emptyStudent`. */
  const EmptyStudent := Student("", "", "CSE", 0.0, [], 0, 0, false, None, Some(0.0), None)

  /** A skill as the form stores it: non-empty, no white space at either end, no comma. */
  predicate Clean(skill: string)
  {
    skill != "" && !IsSpace(skill[0]) && !IsSpace(skill[|skill| - 1]) && ',' !in skill
  }

  /** `pieces.map(s => s.trim())`. */
  function TrimAll(pieces: seq<string>): (r: seq<string>)
    ensures |r| == |pieces|
    ensures forall k :: 0 <= k < |pieces| ==> r[k] == Trim(pieces[k])
  {
    seq(|pieces|, k requires 0 <= k < |pieces| => Trim(pieces[k]))
  }

  function NonEmpty(s: string): bool
  {
    s != ""
  }

  /**
   * `skillsInput.split(',').map(s => s.trim()).filter(s => s !== '')`: every
   * skill is clean, and there are no more skills than comma-separated pieces.
   */
  function ParseSkills(input: string): (r: seq<string>)
    ensures forall k :: 0 <= k < |r| ==> Clean(r[k])
    ensures |r| <= CountChar(input, ',') + 1
  {
    var pieces := Split(input, ',');
    FilteredClean(pieces);
    Filter(TrimAll(pieces), NonEmpty)
  }

  /** The non-blank trimmed pieces of comma-free pieces are clean. */
  lemma FilteredClean(pieces: seq<string>)
    requires forall k :: 0 <= k < |pieces| ==> ',' !in pieces[k]
    ensures forall x :: x in Filter(TrimAll(pieces), NonEmpty) ==> Clean(x)
  {
    var trimmed := TrimAll(pieces);
    forall x | x in Filter(trimmed, NonEmpty) ensures Clean(x) {
      FilterMembers(trimmed, NonEmpty, x);
      var m :| 0 <= m < |trimmed| && trimmed[m] == x;
      TrimClean(pieces[m]);
    }
  }

  /** Trimming a comma-free piece that is not all blank gives a clean skill. */
  lemma TrimClean(piece: string)
    requires ',' !in piece && Trim(piece) != ""
    ensures Clean(Trim(piece))
  {
    var t := TrimStart(piece);
    var r := TrimEnd(t);
    forall p | 0 <= p < |r| ensures r[p] != ',' {
      assert r[p] == t[p] == piece[|piece| - |t| + p];
    }
  }

  /** The parsed skills are trimmed pieces of the input, in input order. */
  lemma ParseSkillsKeepsOrder(input: string)
    ensures SubsequenceOf(ParseSkills(input), TrimAll(Split(input, ',')))
  {
    FilterKeepsOrder(TrimAll(Split(input, ',')), NonEmpty);
  }

  /**
   * `skills.join(', ')`, the text the edit form shows, parses back to the
   * same skills when each of them is clean.
   */
  lemma ParseJoined(skills: seq<string>)
    requires forall k :: 0 <= k < |skills| ==> Clean(skills[k])
    ensures ParseSkills(JoinWith(skills, ", ")) == skills
  {
    if skills == [] {
      ParseEmpty();
    } else {
      ParseJoinedNonEmpty(skills);
    }
  }

  lemma ParseJoinedNonEmpty(skills: seq<string>)
    requires skills != [] && forall k :: 0 <= k < |skills| ==> Clean(skills[k])
    ensures ParseSkills(JoinWith(skills, ", ")) == skills
  {
    var pieces := Split(JoinWith(skills, ", "), ',');
    JoinedPieces(skills);
    assert TrimAll(pieces) == skills;
    FilterKeepsAll(skills, NonEmpty);
  }

  /** An empty field holds no skills. */
  lemma ParseEmpty()
    ensures ParseSkills("") == []
  {
    assert Split("", ',') == [""];
    assert Filter([""], NonEmpty) == [];
  }

  /** The trimmed pieces of a non-empty list of clean skills joined by ", " are those skills. */
  lemma JoinedPieces(skills: seq<string>)
    requires skills != [] && forall k :: 0 <= k < |skills| ==> Clean(skills[k])
    ensures TrimAll(Split(JoinWith(skills, ", "), ',')) == skills
  {
    var pieces := Split(JoinWith(skills, ", "), ',');
    JoinedPiece(skills, 0);
    forall k | 0 <= k < |skills| ensures Trim(pieces[k]) == skills[k] {
      JoinedPiece(skills, k);
    }
    TrimAllIs(pieces, skills);
  }

  lemma TrimAllIs(pieces: seq<string>, trimmed: seq<string>)
    requires |pieces| == |trimmed|
    requires forall k :: 0 <= k < |pieces| ==> Trim(pieces[k]) == trimmed[k]
    ensures TrimAll(pieces) == trimmed
  {
  }

  /** Piece `k` of the joined skills trims to skill `k`. */
  lemma JoinedPiece(skills: seq<string>, k: nat)
    requires k < |skills| && forall k :: 0 <= k < |skills| ==> Clean(skills[k])
    ensures |Split(JoinWith(skills, ", "), ',')| == |skills|
    ensures Trim(Split(JoinWith(skills, ", "), ',')[k]) == skills[k]
  {
    forall m | 0 <= m < |skills| ensures ',' !in skills[m] {
      assert Clean(skills[m]);
    }
    SplitJoinComma(skills);
    assert Clean(skills[k]);
    TrimBlank(skills[k]);
  }

  /** Parsing is a fixed point through the edit form: parse, join, parse gives the first parse. */
  lemma ParseStable(input: string)
    ensures ParseSkills(JoinWith(ParseSkills(input), ", ")) == ParseSkills(input)
  {
    ParseJoined(ParseSkills(input));
  }

  /** `{ ...currentStudent, skills: <parsed> }`: every field but the skills copied. */
  function StudentToSave(current: Student, skillsInput: string): (s: Student)
    ensures s.skills == ParseSkills(skillsInput)
    ensures s.(skills := current.skills) == current
  {
    current.(skills := ParseSkills(skillsInput))
  }

  /** Opening a student for editing and saving without a change saves that very student. */
  lemma SaveUnchanged(student: Student)
    requires forall k :: 0 <= k < |student.skills| ==> Clean(student.skills[k])
    ensures StudentToSave(student, JoinWith(student.skills, ", ")) == student
  {
    ParseJoined(student.skills);
  }

  /** The callback `handleSave` calls: `onEditStudent` or `onAddStudent`, with the student to save. */
  datatype SaveAction = OnAdd(student: Student) | OnEdit(student: Student)

  class StudentDirectory {
    /** The `students` prop. */
    var students: seq<Student>
    var sortedStudents: seq<Student>
    var sortConfig: SortConfig
    var isModalOpen: bool
    var isEditing: bool
    var currentStudent: Student
    var skillsInput: string

    /** The initial state of every hook. */
    constructor (students: seq<Student>)
      ensures this.students == students && sortedStudents == students
      ensures sortConfig == InitialConfig
      ensures !isModalOpen && !isEditing && currentStudent == EmptyStudent && skillsInput == ""
    {
      this.students := students;
      sortedStudents := students;
      sortConfig := InitialConfig;
      isModalOpen := false;
      isEditing := false;
      currentStudent := EmptyStudent;
      skillsInput := "";
    }

    /** The effect on a new `students` prop: the shown list is reset to it, unsorted. */
    method StudentsChanged(students: seq<Student>)
      modifies this
      ensures this.students == students && sortedStudents == students
      ensures sortConfig == old(sortConfig) && isModalOpen == old(isModalOpen) && isEditing == old(isEditing)
      ensures currentStudent == old(currentStudent) && skillsInput == old(skillsInput)
    {
      this.students := students;
      sortedStudents := students;
    }

    /**
     * `handleSort(key)`: toggle the direction and show the `students` prop
     * sorted on `key`; what was shown before plays no part.
     */
    method HandleSort(key: SortKey)
      modifies this
      ensures sortConfig == Click(old(sortConfig), key)
      ensures sortedStudents == SortStudents(students, key, sortConfig.direction)
      ensures students == old(students) && isModalOpen == old(isModalOpen) && isEditing == old(isEditing)
      ensures currentStudent == old(currentStudent) && skillsInput == old(skillsInput)
    {
      var direction := if sortConfig.key == key && sortConfig.direction == Asc then Desc else Asc;
      sortConfig := SortConfig(key, direction);
      var sorted := MergeSortStudents(students, Comparison(key, direction));
      sortedStudents := sorted;
    }

    /** `openAddModal()`: a blank form for a new student whose id is `now`. */
    method OpenAddModal(now: string)
      modifies this
      ensures currentStudent == EmptyStudent.(id := now) && skillsInput == ""
      ensures !isEditing && isModalOpen
      ensures students == old(students) && sortedStudents == old(sortedStudents) && sortConfig == old(sortConfig)
    {
      currentStudent := EmptyStudent.(id := now);
      skillsInput := "";
      isEditing := false;
      isModalOpen := true;
    }

    /** `openEditModal(student)`: the form filled with the student, its skills joined by ", ". */
    method OpenEditModal(student: Student)
      modifies this
      ensures currentStudent == student && skillsInput == JoinWith(student.skills, ", ")
      ensures isEditing && isModalOpen
      ensures students == old(students) && sortedStudents == old(sortedStudents) && sortConfig == old(sortConfig)
    {
      currentStudent := student;
      skillsInput := JoinWith(student.skills, ", ");
      isEditing := true;
      isModalOpen := true;
    }

    /** `handleSave()`: the form's student with its parsed skills, to edit when editing and to add otherwise. */
    method HandleSave() returns (action: SaveAction)
      modifies this
      ensures action == if isEditing then OnEdit(StudentToSave(currentStudent, skillsInput))
                        else OnAdd(StudentToSave(currentStudent, skillsInput))
      ensures !isModalOpen
      ensures isEditing == old(isEditing) && currentStudent == old(currentStudent) && skillsInput == old(skillsInput)
      ensures students == old(students) && sortedStudents == old(sortedStudents) && sortConfig == old(sortConfig)
    {
      var studentToSave := StudentToSave(currentStudent, skillsInput);
      if isEditing {
        action := OnEdit(studentToSave);
      } else {
        action := OnAdd(studentToSave);
      }
      isModalOpen := false;
    }
  }
}

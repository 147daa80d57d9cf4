/**
 * The application shell (App.tsx): the list of students every view reads,
 * and the two callbacks the student directory is given to change it. Both
 * build a new list; neither changes the old one.
 */
module App {
  import opened Types
  import opened Text
  import opened AllStudents

  /** `handleAddStudent`: `[...students, newStudent]`. */
  function AddStudent(students: seq<Student>, newStudent: Student): (r: seq<Student>)
    ensures |r| == |students| + 1
    ensures r[|students|] == newStudent
    ensures r[..|students|] == students
  {
    students + [newStudent]
  }

  /** `students.map(s => s.id === updated.id ? updated : s)`. */
  function EditStudent(students: seq<Student>, updated: Student): (r: seq<Student>)
    ensures |r| == |students|
    ensures forall i :: 0 <= i < |r| && students[i].id == updated.id ==> r[i] == updated
    ensures forall i :: 0 <= i < |r| && students[i].id != updated.id ==> r[i] == students[i]
  {
    seq(|students|, i requires 0 <= i < |students| =>
      if students[i].id == updated.id then updated else students[i])
  }

  /** The ids of a list, in order. */
  function Ids(students: seq<Student>): (r: seq<string>)
    ensures |r| == |students|
    ensures forall i :: 0 <= i < |r| ==> r[i] == students[i].id
  {
    seq(|students|, i requires 0 <= i < |students| => students[i].id)
  }

  /** Editing keeps every id in its place: the same students, in the same order, are listed. */
  lemma EditKeepsIds(students: seq<Student>, updated: Student)
    ensures Ids(EditStudent(students, updated)) == Ids(students)
  {
    var r := EditStudent(students, updated);
    forall i | 0 <= i < |students| ensures Ids(r)[i] == Ids(students)[i] {
      if students[i].id == updated.id {
        assert r[i] == updated;
      }
    }
  }

  /** Editing with an id no student has changes nothing. */
  lemma EditAbsent(students: seq<Student>, updated: Student)
    requires updated.id !in Ids(students)
    ensures EditStudent(students, updated) == students
  {
    var r := EditStudent(students, updated);
    forall i | 0 <= i < |students| ensures r[i] == students[i] {
      assert Ids(students)[i] == students[i].id;
    }
  }

  /** Applying the same edit twice gives what applying it once gives. */
  lemma EditIdempotent(students: seq<Student>, updated: Student)
    ensures EditStudent(EditStudent(students, updated), updated) == EditStudent(students, updated)
  {
    var once := EditStudent(students, updated);
    var twice := EditStudent(once, updated);
    forall i | 0 <= i < |students| ensures twice[i] == once[i] {
      if students[i].id == updated.id {
        assert once[i] == updated;
      } else {
        assert once[i] == students[i];
      }
    }
  }

  /**
   * Of two edits, the later wins on the students both match; on different
   * ids they do not interfere, so their order does not matter.
   */
  lemma EditsCommute(students: seq<Student>, a: Student, b: Student)
    requires a.id != b.id
    ensures EditStudent(EditStudent(students, a), b) == EditStudent(EditStudent(students, b), a)
  {
    var ab := EditStudent(EditStudent(students, a), b);
    var ba := EditStudent(EditStudent(students, b), a);
    forall i | 0 <= i < |students| ensures ab[i] == ba[i] {
      if students[i].id == a.id {
        assert EditStudent(students, a)[i] == a;
        assert EditStudent(students, b)[i] == students[i];
      } else if students[i].id == b.id {
        assert EditStudent(students, a)[i] == students[i];
        assert EditStudent(students, b)[i] == b;
      } else {
        assert EditStudent(students, a)[i] == students[i];
        assert EditStudent(students, b)[i] == students[i];
      }
    }
  }

  /** Adding a student under a new id and then editing it is adding the edited student. */
  lemma AddThenEdit(students: seq<Student>, added: Student, edited: Student)
    requires added.id !in Ids(students) && edited.id == added.id
    ensures EditStudent(AddStudent(students, added), edited) == AddStudent(students, edited)
  {
    EditAbsent(students, edited);
    var r := EditStudent(AddStudent(students, added), edited);
    forall i | 0 <= i < |students| ensures r[i] == students[i] {
      assert Ids(students)[i] == students[i].id;
    }
  }

  /** The list after the directory's save: `onAddStudent` or `onEditStudent` applied. */
  function Apply(students: seq<Student>, action: SaveAction): (r: seq<Student>)
    ensures action.OnAdd? ==> r == AddStudent(students, action.student)
    ensures action.OnEdit? ==> r == EditStudent(students, action.student)
  {
    match action
    case OnAdd(s) => AddStudent(students, s)
    case OnEdit(s) => EditStudent(students, s)
  }

  /**
   * Opening a listed student for editing and saving the form untouched
   * leaves the list as it was, provided every student under that id is that
   * student and its skills are as the form stores them.
   */
  lemma SaveUnchangedEdit(students: seq<Student>, student: Student)
    requires forall i :: 0 <= i < |students| && students[i].id == student.id ==> students[i] == student
    requires forall k :: 0 <= k < |student.skills| ==> Clean(student.skills[k])
    ensures Apply(students, OnEdit(StudentToSave(student, JoinWith(student.skills, ", ")))) == students
  {
    SaveUnchanged(student);
    var r := EditStudent(students, student);
    forall i | 0 <= i < |students| ensures r[i] == students[i] {
    }
  }
}

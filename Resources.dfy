// The import hooks of web/resources.py that run before a row is saved:
// ClassResource refuses a numeric_value another class already has, and
// StudentResource refuses a roll number already taken in the same class.
// Both only read the table; a refusal is the ValueError they raise.

module Resources {
  import opened Common
  import opened Records

  /** `str(n)` for any integer. */
  function IntToString(n: int): (s: string)
    ensures n >= 0 ==> s == NatToString(n)
    ensures n < 0 ==> s == "-" + NatToString(-n)
  {
    if n >= 0 then NatToString(n) else "-" + NatToString(-n)
  }

  /** `filter(...).exclude(pk=instance.pk)`: a row is excluded only when the
      instance has a primary key and the row has it; `exclude(pk=None)`
      excludes nothing. */
  predicate OtherRow(pk: Option<nat>, id: nat) {
    pk.None? || pk.value != id
  }

  // ---------------------------------------------------------------------
  // ClassResource.before_save_instance
  // ---------------------------------------------------------------------

  /** The other classes with the given numeric value. */
  function ClassClashes(classes: seq<ClassRec>, pk: Option<nat>, numericValue: int): (r: seq<ClassRec>)
    ensures forall c :: c in r <==> c in classes && c.numericValue == numericValue && OtherRow(pk, c.id)
  {
    Filter(classes, (c: ClassRec) => c.numericValue == numericValue && OtherRow(pk, c.id))
  }

  function ClassSaveCheck(classes: seq<ClassRec>, pk: Option<nat>, numericValue: int): (r: Result<()>)
    ensures r.Ok? <==> forall c :: c in classes && c.numericValue == numericValue ==> !OtherRow(pk, c.id)
    ensures r.Failure? ==> r.error == "Class with numeric_value " + IntToString(numericValue) + " already exists"
  {
    if ClassClashes(classes, pk, numericValue) != [] then
      Failure("Class with numeric_value " + IntToString(numericValue) + " already exists")
    else
      assert forall c :: c in classes && c.numericValue == numericValue && OtherRow(pk, c.id) ==> c in ClassClashes(classes, pk, numericValue);
      Ok(())
  }

  /** No two classes share a numeric value (the column is unique). */
  predicate UniqueNumericValues(classes: seq<ClassRec>) {
    forall i, j :: 0 <= i < j < |classes| ==> classes[i].numericValue != classes[j].numericValue
  }

  /** A class imported again with its own primary key and its unchanged
      numeric value is accepted. */
  lemma ReimportAccepted(classes: seq<ClassRec>, c: ClassRec)
    requires UniqueNumericValues(classes) && c in classes
    ensures ClassSaveCheck(classes, Some(c.id), c.numericValue).Ok?
  {
    forall d | d in classes && d.numericValue == c.numericValue ensures d.id == c.id {
      var i :| 0 <= i < |classes| && classes[i] == c;
      var j :| 0 <= j < |classes| && classes[j] == d;
      assert i == j;
    }
  }

  /** A value held by a class with a different (or no) primary key is refused. */
  lemma TakenValueRefused(classes: seq<ClassRec>, pk: Option<nat>, c: ClassRec)
    requires c in classes && OtherRow(pk, c.id)
    ensures ClassSaveCheck(classes, pk, c.numericValue).Failure?
  {
  }

  /** Appending a new class that passed the check keeps the values unique. */
  lemma AcceptedInsertKeepsUnique(classes: seq<ClassRec>, x: ClassRec)
    requires UniqueNumericValues(classes)
    requires ClassSaveCheck(classes, None, x.numericValue).Ok?
    ensures UniqueNumericValues(classes + [x])
  {
    var r := classes + [x];
    forall i, j | 0 <= i < j < |r| ensures r[i].numericValue != r[j].numericValue {
      if j == |classes| {
        assert r[i] in classes;
      }
    }
  }

  /** The table with the row of `x.id` replaced by `x`. */
  function ReplaceById(classes: seq<ClassRec>, x: ClassRec): (r: seq<ClassRec>)
    ensures |r| == |classes|
    ensures forall i :: 0 <= i < |r| ==> r[i] == if classes[i].id == x.id then x else classes[i]
  {
    seq(|classes|, i requires 0 <= i < |classes| => if classes[i].id == x.id then x else classes[i])
  }

  /** Updating an existing class (ids unique) with a value that passed the
      check keeps the values unique. */
  lemma AcceptedUpdateKeepsUnique(classes: seq<ClassRec>, x: ClassRec)
    requires UniqueNumericValues(classes) && UniqueClassIds(classes)
    requires ClassSaveCheck(classes, Some(x.id), x.numericValue).Ok?
    ensures UniqueNumericValues(ReplaceById(classes, x))
  {
    var r := ReplaceById(classes, x);
    forall i, j | 0 <= i < j < |r| ensures r[i].numericValue != r[j].numericValue {
      assert classes[i] in classes && classes[j] in classes;
    }
  }

  // ---------------------------------------------------------------------
  // StudentResource.before_save_instance
  // ---------------------------------------------------------------------

  /** The other students with that roll number in that class. */
  function StudentClashes(students: seq<StudentRec>, pk: Option<nat>, roll: string, classId: nat): (r: seq<StudentRec>)
    ensures forall s :: s in r <==> s in students && s.rollNumber == roll && s.classId == Some(classId) && OtherRow(pk, s.id)
  {
    Filter(students, (s: StudentRec) => s.rollNumber == roll && s.classId == Some(classId) && OtherRow(pk, s.id))
  }

  /** A student without a class is never checked; one with a class is
      refused when another student of that class has the same roll. */
  function StudentSaveCheck(classes: seq<ClassRec>, students: seq<StudentRec>, pk: Option<nat>, roll: string, classId: Option<nat>): (r: Result<()>)
    ensures classId.None? ==> r.Ok?
    ensures classId.Some? ==>
      (r.Ok? <==> forall s :: s in students && s.rollNumber == roll && s.classId == classId ==> !OtherRow(pk, s.id))
    ensures r.Failure? ==> r.error == "Student with roll number " + roll + " already exists in class " + ClassNameOf(classes, classId)
  {
    if classId.Some? && StudentClashes(students, pk, roll, classId.value) != [] then
      Failure("Student with roll number " + roll + " already exists in class " + ClassNameOf(classes, classId))
    else
      assert classId.Some? ==> forall s :: s in students && s.rollNumber == roll && s.classId == classId && OtherRow(pk, s.id)
                                 ==> s in StudentClashes(students, pk, roll, classId.value);
      Ok(())
  }

  /** Within a class, no two students share a roll number. */
  predicate UniqueRollsPerClass(students: seq<StudentRec>) {
    forall i, j :: 0 <= i < j < |students| && students[i].classId.Some? && students[i].classId == students[j].classId
      ==> students[i].rollNumber != students[j].rollNumber
  }

  /** Only the students of the target class matter: rows of other classes
      or of none, whatever their roll numbers, never cause a refusal. */
  lemma UniquenessIsPerClass(classes: seq<ClassRec>, students: seq<StudentRec>, others: seq<StudentRec>,
                             pk: Option<nat>, roll: string, classId: nat)
    requires forall s :: s in others ==> s.classId != Some(classId)
    ensures StudentSaveCheck(classes, students + others, pk, roll, Some(classId)).Ok?
            == StudentSaveCheck(classes, students, pk, roll, Some(classId)).Ok?
  {
  }

  /** The same roll number in a different class is accepted. */
  lemma SameRollOtherClassAccepted(classes: seq<ClassRec>, s: StudentRec, pk: Option<nat>, classId: nat)
    requires s.classId != Some(classId)
    ensures StudentSaveCheck(classes, [s], pk, s.rollNumber, Some(classId)).Ok?
  {
  }

  /** Appending a new student that passed the check keeps rolls unique per class. */
  lemma AcceptedStudentKeepsUnique(classes: seq<ClassRec>, students: seq<StudentRec>, x: StudentRec)
    requires UniqueRollsPerClass(students)
    requires StudentSaveCheck(classes, students, None, x.rollNumber, x.classId).Ok?
    ensures UniqueRollsPerClass(students + [x])
  {
    var r := students + [x];
    forall i, j | 0 <= i < j < |r| && r[i].classId.Some? && r[i].classId == r[j].classId
      ensures r[i].rollNumber != r[j].rollNumber
    {
      if j == |students| {
        assert r[i] in students;
      }
    }
  }
}

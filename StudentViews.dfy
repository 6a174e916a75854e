// filter_students (web/views.py): two independent views of one request,
// the male/female counts taken from the manual fields of classes, and the
// student rows, which a class's `show_students_publicly` flag gates.

module StudentViews {
  import opened Common
  import opened Records
  import opened DocumentViews

  /** One serialised student. */
  datatype StudentRow = StudentRow(
    id: nat,
    name: string,
    roll: string,
    registration: string,
    className: string,
    department: string,
    image: string,
    guardianName: string,
    guardianPhone: string,
    address: string)

  /** The counts and the rows the two rendered fragments show. */
  datatype StudentsView = StudentsView(maleCount: int, femaleCount: int, totalCount: int, rows: seq<StudentRow>)

  const EmptyView := StudentsView(0, 0, 0, [])

  /** The message of the ValueError the ORM raises for `Class.objects.get(id=class_id)`
      when `class_id` is not a number. */
  const NotANumberMessage: string := "Field 'id' expected a number"

  /** The photo's URL, or one of ten stock pictures chosen by `id % 10 + 1`. */
  function StudentImage(site: Site, s: StudentRec): (url: string)
    ensures s.photo == "" ==> url == "/static/img/administration/" + NatToString(s.id % 10 + 1) + ".jpeg"
    ensures s.photo != "" ==> url == site.mediaUrl + s.photo
  {
    if s.photo != "" then site.mediaUrl + s.photo
    else "/static/img/administration/" + NatToString(s.id % 10 + 1) + ".jpeg"
  }

  /** The dictionary built for one student: its own fields, the class and
      department names ("" when absent) and the image URL. */
  function StudentRowOf(classes: seq<ClassRec>, departments: seq<DepartmentRec>, site: Site, s: StudentRec): (row: StudentRow)
    ensures row.id == s.id && row.name == s.name && row.roll == s.rollNumber && row.registration == s.registrationNumber
    ensures row.className == ClassNameOf(classes, s.classId)
    ensures row.department == DepartmentNameOf(departments, s.departmentId)
    ensures s.departmentId.None? ==> row.department == ""
    ensures row.image == StudentImage(site, s)
    ensures row.guardianName == s.guardianName && row.guardianPhone == s.guardianPhone && row.address == s.address
  {
    StudentRow(s.id, s.name, s.rollNumber, s.registrationNumber, ClassNameOf(classes, s.classId),
               DepartmentNameOf(departments, s.departmentId), StudentImage(site, s),
               s.guardianName, s.guardianPhone, s.address)
  }

  /** The list comprehension over the displayed students. */
  function StudentRows(classes: seq<ClassRec>, departments: seq<DepartmentRec>, site: Site, ss: seq<StudentRec>): (rows: seq<StudentRow>)
    ensures |rows| == |ss|
    ensures forall i :: 0 <= i < |ss| ==> rows[i] == StudentRowOf(classes, departments, site, ss[i])
  {
    seq(|ss|, i requires 0 <= i < |ss| => StudentRowOf(classes, departments, site, ss[i]))
  }

  // ---------------------------------------------------------------------
  // By department
  // ---------------------------------------------------------------------

  /** Some student of class `c` is in the department with that slug. */
  predicate HasStudentInDepartment(departments: seq<DepartmentRec>, students: seq<StudentRec>, slug: string, c: ClassRec) {
    exists s :: s in students && s.classId == Some(c.id) && InDepartmentWithSlug(departments, s.departmentId, slug)
  }

  /** `Class.objects.filter(students__department__slug=slug).distinct()`:
      each class row at most once. */
  function ClassesInDepartment(departments: seq<DepartmentRec>, students: seq<StudentRec>, classes: seq<ClassRec>, slug: string): seq<ClassRec> {
    Filter(classes, (c: ClassRec) => HasStudentInDepartment(departments, students, slug, c))
  }

  function SumMale(cs: seq<ClassRec>): int {
    if cs == [] then 0 else cs[0].maleStudent + SumMale(cs[1..])
  }

  function SumFemale(cs: seq<ClassRec>): int {
    if cs == [] then 0 else cs[0].femaleStudent + SumFemale(cs[1..])
  }

  /** A class id among those of `cs`. */
  predicate ClassIdIn(cs: seq<ClassRec>, id: Option<nat>) {
    id.Some? && exists c :: c in cs && c.id == id.value
  }

  /** Students of the department whose class is one of its publicly shown classes. */
  function DepartmentStudents(departments: seq<DepartmentRec>, students: seq<StudentRec>, classes: seq<ClassRec>, slug: string): seq<StudentRec> {
    var visible := Filter(ClassesInDepartment(departments, students, classes, slug), (c: ClassRec) => c.showStudentsPublicly);
    Filter(students, (s: StudentRec) => InDepartmentWithSlug(departments, s.departmentId, slug) && ClassIdIn(visible, s.classId))
  }

  // ---------------------------------------------------------------------
  // The view
  // ---------------------------------------------------------------------

  /** filter_students: a non-empty `class_id` selects one class (and a
      non-numeric one makes the ORM raise), otherwise a non-empty
      `dept_slug` selects a department; with neither, counts are 0 and no
      student is shown. */
  function FilterStudents(classes: seq<ClassRec>, departments: seq<DepartmentRec>, students: seq<StudentRec>, site: Site,
                          classIdParam: Option<string>, deptSlugParam: Option<string>): (r: Result<StudentsView>)
    ensures r.Failure? <==> Given(classIdParam) && !IsDigits(classIdParam.value)
    ensures r.Ok? ==> r.value.totalCount == r.value.maleCount + r.value.femaleCount
    ensures !Given(classIdParam) && !Given(deptSlugParam) ==> r == Ok(EmptyView)
  {
    if Given(classIdParam) then
      if !IsDigits(classIdParam.value) then Failure(NotANumberMessage)
      else match FindClass(classes, DigitsValue(classIdParam.value))
        case None => Ok(EmptyView)
        case Some(c) =>
          Ok(StudentsView(c.maleStudent, c.femaleStudent, c.maleStudent + c.femaleStudent,
                          StudentRows(classes, departments, site, ClassShown(students, c))))
    else if Given(deptSlugParam) then
      var inDept := ClassesInDepartment(departments, students, classes, deptSlugParam.value);
      var male, female := SumMale(inDept), SumFemale(inDept);
      Ok(StudentsView(male, female, male + female,
                      StudentRows(classes, departments, site, DepartmentStudents(departments, students, classes, deptSlugParam.value))))
    else Ok(EmptyView)
  }

  /** By class, the counts are the class's manual fields whatever its
      visibility flag says; the rows are that class's students when it is
      shown and none when it is hidden. */
  lemma ClassCountsAndRows(classes: seq<ClassRec>, departments: seq<DepartmentRec>, students: seq<StudentRec>, site: Site,
                           classIdParam: string, deptSlugParam: Option<string>, c: ClassRec)
    requires IsDigits(classIdParam) && FindClass(classes, DigitsValue(classIdParam)) == Some(c)
    ensures var r := FilterStudents(classes, departments, students, site, Some(classIdParam), deptSlugParam);
      && r.Ok?
      && r.value.maleCount == c.maleStudent && r.value.femaleCount == c.femaleStudent
      && (!c.showStudentsPublicly ==> r.value.rows == [])
      && (c.showStudentsPublicly ==>
            |r.value.rows| == |Filter(students, (s: StudentRec) => s.classId == Some(c.id))|
            && forall row :: row in r.value.rows ==> row.className == c.name)
  {
    var shown := ClassShown(students, c);
    assert FilterStudents(classes, departments, students, site, Some(classIdParam), deptSlugParam)
        == Ok(StudentsView(c.maleStudent, c.femaleStudent, c.maleStudent + c.femaleStudent,
                           StudentRows(classes, departments, site, shown)));
    RowsNamedForClass(classes, departments, site, shown, c);
  }

  /** The students `filter_students` lists for class `c`. */
  function ClassShown(students: seq<StudentRec>, c: ClassRec): (shown: seq<StudentRec>)
    ensures forall s :: s in shown ==> s.classId == Some(c.id)
  {
    if c.showStudentsPublicly then Filter(students, (s: StudentRec) => s.classId == Some(c.id)) else []
  }

  /** Rows built for students of one existing class all carry its name. */
  lemma RowsNamedForClass(classes: seq<ClassRec>, departments: seq<DepartmentRec>, site: Site, shown: seq<StudentRec>, c: ClassRec)
    requires FindClass(classes, c.id) == Some(c)
    requires forall s :: s in shown ==> s.classId == Some(c.id)
    ensures forall row :: row in StudentRows(classes, departments, site, shown) ==> row.className == c.name
  {
    var rows := StudentRows(classes, departments, site, shown);
    forall row | row in rows ensures row.className == c.name {
      var i :| 0 <= i < |rows| && rows[i] == row;
      assert shown[i] in shown;
    }
  }

  /** A class id that names no class gives counts 0, 0 and no rows. */
  lemma UnknownClassIsEmpty(classes: seq<ClassRec>, departments: seq<DepartmentRec>, students: seq<StudentRec>, site: Site,
                            id: nat, deptSlugParam: Option<string>)
    requires forall c :: c in classes ==> c.id != id
    ensures FilterStudents(classes, departments, students, site, Some(NatToString(id)), deptSlugParam) == Ok(EmptyView)
  {
    DigitsRoundTrip(id);
  }

  /** By department, every student shown belongs to that department and to a
      class that has a student there and is shown publicly. */
  lemma {:induction false} DepartmentRowsVisible(departments: seq<DepartmentRec>, students: seq<StudentRec>, classes: seq<ClassRec>, slug: string)
    ensures forall s :: s in DepartmentStudents(departments, students, classes, slug) ==>
      s in students
      && InDepartmentWithSlug(departments, s.departmentId, slug)
      && s.classId.Some?
      && exists c :: c in classes && c.id == s.classId.value && c.showStudentsPublicly
                     && HasStudentInDepartment(departments, students, slug, c)
  {
    var inDept := ClassesInDepartment(departments, students, classes, slug);
    var visible := Filter(inDept, (c: ClassRec) => c.showStudentsPublicly);
    forall s | s in DepartmentStudents(departments, students, classes, slug)
      ensures exists c :: c in classes && c.id == s.classId.value && c.showStudentsPublicly
                          && HasStudentInDepartment(departments, students, slug, c)
    {
      var c :| c in visible && c.id == s.classId.value;
      assert c in inDept;
    }
  }

  /** By department, the counts are the sums of the manual fields over the
      classes that have a student there; with no such class they are 0. */
  lemma {:induction false} DepartmentCounts(classes: seq<ClassRec>, departments: seq<DepartmentRec>, students: seq<StudentRec>, site: Site, slug: string)
    requires slug != ""
    ensures var r := FilterStudents(classes, departments, students, site, None, Some(slug));
      var inDept := ClassesInDepartment(departments, students, classes, slug);
      && r.Ok?
      && r.value.maleCount == SumMale(inDept) && r.value.femaleCount == SumFemale(inDept)
      && ((forall c :: c in classes ==> !HasStudentInDepartment(departments, students, slug, c)) ==>
            r.value.maleCount == 0 && r.value.femaleCount == 0 && r.value.rows == [])
  {
    var inDept := ClassesInDepartment(departments, students, classes, slug);
    if forall c :: c in classes ==> !HasStudentInDepartment(departments, students, slug, c) {
      NoMembersEmpty(inDept);
      var visible := Filter(inDept, (c: ClassRec) => c.showStudentsPublicly);
      assert visible == [];
      var shown := DepartmentStudents(departments, students, classes, slug);
      NoMembersEmpty(shown);
    }
  }

  /** The sum of `total_students` over classes. */
  function SumTotal(cs: seq<ClassRec>): int {
    if cs == [] then 0 else cs[0].TotalStudents() + SumTotal(cs[1..])
  }

  lemma {:induction false} SumTotalSplits(cs: seq<ClassRec>)
    ensures SumTotal(cs) == SumMale(cs) + SumFemale(cs)
  {
    if cs != [] {
      SumTotalSplits(cs[1..]);
    }
  }

  /** By class, the total the view shows is the class's `total_students`,
      the number the admin's "Total Students (Manual)" column shows. */
  lemma ClassTotalIsAdminTotal(classes: seq<ClassRec>, departments: seq<DepartmentRec>, students: seq<StudentRec>, site: Site,
                               classIdParam: string, deptSlugParam: Option<string>, c: ClassRec)
    requires IsDigits(classIdParam) && FindClass(classes, DigitsValue(classIdParam)) == Some(c)
    ensures var r := FilterStudents(classes, departments, students, site, Some(classIdParam), deptSlugParam);
      r.Ok? && r.value.totalCount == c.TotalStudents()
  {
  }

  /** By department, the total is the sum of `total_students` over the
      distinct classes that have a student there. */
  lemma DepartmentTotalIsClassTotals(classes: seq<ClassRec>, departments: seq<DepartmentRec>, students: seq<StudentRec>, site: Site, slug: string)
    requires slug != ""
    ensures var r := FilterStudents(classes, departments, students, site, None, Some(slug));
      r.Ok? && r.value.totalCount == SumTotal(ClassesInDepartment(departments, students, classes, slug))
  {
    SumTotalSplits(ClassesInDepartment(departments, students, classes, slug));
  }

  lemma NoMembersEmpty<T>(s: seq<T>)
    ensures (forall x :: x !in s) ==> s == []
  {
    if s != [] {
      assert s[0] in s;
    }
  }

  /** Hiding a class (clearing its `show_students_publicly`) removes its
      rows and leaves its counts as they were. */
  lemma VisibilityOnlyGatesRows(classes: seq<ClassRec>, departments: seq<DepartmentRec>, students: seq<StudentRec>, site: Site,
                                classIdParam: string, c: ClassRec)
    requires IsDigits(classIdParam) && FindClass(classes, DigitsValue(classIdParam)) == Some(c)
    ensures var r1 := FilterStudents(classes, departments, students, site, Some(classIdParam), None);
      var hidden := ReplaceClass(classes, c.(showStudentsPublicly := false));
      var r2 := FilterStudents(hidden, departments, students, site, Some(classIdParam), None);
      r1.Ok? && r2.Ok? && r1.value.maleCount == r2.value.maleCount && r1.value.femaleCount == r2.value.femaleCount
      && r2.value.rows == []
  {
    FindAfterReplace(classes, c.(showStudentsPublicly := false), DigitsValue(classIdParam));
  }

  /** The class table with the row of `c.id` replaced by `c`. */
  function ReplaceClass(classes: seq<ClassRec>, c: ClassRec): seq<ClassRec> {
    seq(|classes|, i requires 0 <= i < |classes| => if classes[i].id == c.id then c else classes[i])
  }

  lemma {:induction false} FindAfterReplace(classes: seq<ClassRec>, c: ClassRec, id: nat)
    requires FindClass(classes, id).Some? && id == c.id
    ensures FindClass(ReplaceClass(classes, c), id) == Some(c)
  {
    if classes[0].id != id {
      FindAfterReplace(classes[1..], c, id);
      assert ReplaceClass(classes, c)[1..] == ReplaceClass(classes[1..], c);
    }
  }
}

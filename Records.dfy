// The rows the views, the import hooks and the admin read and write
// (web/models.py, notice/models.py), as values: one datatype per table,
// with foreign keys as optional ids, and lookups by primary key.

module Records {
  import opened Common

  /** A row of `Class`. The student counts are the manual fields. */
  datatype ClassRec = ClassRec(
    id: nat,
    name: string,
    nameEn: string,
    numericValue: int,
    maleStudent: int,
    femaleStudent: int,
    showStudentsPublicly: bool)
  {
    /** Class.total_students, the admin's "Total Students (Manual)" column. */
    function TotalStudents(): int {
      maleStudent + femaleStudent
    }
  }

  /** A row of `Department`. */
  datatype DepartmentRec = DepartmentRec(
    id: nat,
    name: string,
    nameEn: string,
    slug: string,
    maleStudent: int,
    femaleStudent: int)

  /** A row of `Student`; `photo` is the stored image name ("" when none). */
  datatype StudentRec = StudentRec(
    id: nat,
    name: string,
    rollNumber: string,
    registrationNumber: string,
    classId: Option<nat>,
    departmentId: Option<nat>,
    photo: string,
    guardianName: string,
    guardianPhone: string,
    address: string)

  /** A row of `notice.NoticeType`. */
  datatype NoticeTypeRec = NoticeTypeRec(id: nat, name: string, slug: string)

  /** What distinguishes the document tables from one another: a routine's
      category ('class' or 'exam'), a notice's type and card text. */
  datatype Detail =
    | Plain
    | RoutineDetail(category: string)
    | NoticeDetail(noticeTypeId: nat, shortDescription: string)

  /** A row of Routine, Book, Syllabus, Result, Admission or notice.Notice:
      the columns the listings read. `file` is the stored file name ("" when
      none); timestamps are abstract instants, larger is later. */
  datatype Document = Document(
    id: nat,
    title: string,
    classId: Option<nat>,
    departmentId: Option<nat>,
    file: string,
    isActive: bool,
    createdAt: int,
    updatedAt: int,
    detail: Detail)

  /** A row of `ContactMessage` as the contact form stores it. */
  datatype ContactMessageRec = ContactMessageRec(name: string, phone: string, title: string, message: string, isRead: bool)

  /** A row of `SchoolInfo` and of `ContactInfo`; only their presence matters here. */
  datatype SchoolInfoRec = SchoolInfoRec(name: string)
  datatype ContactInfoRec = ContactInfoRec(title: string)

  // ---------------------------------------------------------------------
  // Lookups by primary key
  // ---------------------------------------------------------------------

  function FindClass(classes: seq<ClassRec>, id: nat): (r: Option<ClassRec>)
    ensures r.Some? ==> r.value in classes && r.value.id == id
    ensures r.None? <==> forall c :: c in classes ==> c.id != id
  {
    if classes == [] then None
    else if classes[0].id == id then Some(classes[0])
    else FindClass(classes[1..], id)
  }

  function FindDepartment(departments: seq<DepartmentRec>, id: nat): (r: Option<DepartmentRec>)
    ensures r.Some? ==> r.value in departments && r.value.id == id
    ensures r.None? <==> forall d :: d in departments ==> d.id != id
  {
    if departments == [] then None
    else if departments[0].id == id then Some(departments[0])
    else FindDepartment(departments[1..], id)
  }

  function FindNoticeType(types: seq<NoticeTypeRec>, id: nat): (r: Option<NoticeTypeRec>)
    ensures r.Some? ==> r.value in types && r.value.id == id
    ensures r.None? <==> forall t :: t in types ==> t.id != id
  {
    if types == [] then None
    else if types[0].id == id then Some(types[0])
    else FindNoticeType(types[1..], id)
  }

  /** `obj.class_name.name if obj.class_name else ''`. */
  function ClassNameOf(classes: seq<ClassRec>, classId: Option<nat>): (name: string)
    ensures classId.None? ==> name == ""
    ensures classId.Some? && FindClass(classes, classId.value).Some? ==>
              name == FindClass(classes, classId.value).value.name
  {
    if classId.None? then ""
    else match FindClass(classes, classId.value)
      case Some(c) => c.name
      case None => ""
  }

  /** `obj.department.name if obj.department else ''`. */
  function DepartmentNameOf(departments: seq<DepartmentRec>, departmentId: Option<nat>): (name: string)
    ensures departmentId.None? ==> name == ""
    ensures departmentId.Some? && FindDepartment(departments, departmentId.value).Some? ==>
              name == FindDepartment(departments, departmentId.value).value.name
  {
    if departmentId.None? then ""
    else match FindDepartment(departments, departmentId.value)
      case Some(d) => d.name
      case None => ""
  }

  /** The join `department__slug = slug`: the row's department exists and has that slug. */
  predicate InDepartmentWithSlug(departments: seq<DepartmentRec>, departmentId: Option<nat>, slug: string) {
    departmentId.Some?
    && FindDepartment(departments, departmentId.value).Some?
    && FindDepartment(departments, departmentId.value).value.slug == slug
  }

  // ---------------------------------------------------------------------
  // Table-level facts the database maintains
  // ---------------------------------------------------------------------

  /** Primary keys are unique. */
  predicate UniqueClassIds(classes: seq<ClassRec>) {
    forall i, j :: 0 <= i < j < |classes| ==> classes[i].id != classes[j].id
  }

  predicate UniqueStudentIds(students: seq<StudentRec>) {
    forall i, j :: 0 <= i < j < |students| ==> students[i].id != students[j].id
  }

  /** Every foreign key of a student names an existing row. */
  predicate StudentRefsValid(students: seq<StudentRec>, classes: seq<ClassRec>, departments: seq<DepartmentRec>) {
    forall s :: s in students ==>
      (s.classId.Some? ==> FindClass(classes, s.classId.value).Some?)
      && (s.departmentId.Some? ==> FindDepartment(departments, s.departmentId.value).Some?)
  }

  predicate DocumentRefsValid(docs: seq<Document>, classes: seq<ClassRec>, departments: seq<DepartmentRec>) {
    forall d :: d in docs ==>
      (d.classId.Some? ==> FindClass(classes, d.classId.value).Some?)
      && (d.departmentId.Some? ==> FindDepartment(departments, d.departmentId.value).Some?)
  }
}

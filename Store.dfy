// The tables the admin and the contact form write, and what deleting a row
// does to the rows that point at it (web/models.py, notice/models.py):
// a Class or Department that is deleted leaves its students and documents
// with no class or department (SET_NULL); a NoticeType that is deleted
// takes its notices with it (CASCADE).

module Store {
  import opened Common
  import opened Records

  // ---------------------------------------------------------------------
  // The effect of a delete on one table, as functions
  // ---------------------------------------------------------------------

  /** The class table without the row of `id`. */
  function RemoveClass(classes: seq<ClassRec>, id: nat): (r: seq<ClassRec>)
    ensures |r| <= |classes|
    ensures forall c :: c in r <==> c in classes && c.id != id
  {
    Filter(classes, (c: ClassRec) => c.id != id)
  }

  function RemoveDepartment(departments: seq<DepartmentRec>, id: nat): (r: seq<DepartmentRec>)
    ensures |r| <= |departments|
    ensures forall d :: d in r <==> d in departments && d.id != id
  {
    Filter(departments, (d: DepartmentRec) => d.id != id)
  }

  /** SET_NULL on `Student.class_name`: the students of class `id` lose
      their class, every other student is left as it is, none is removed. */
  function UnlinkStudentsFromClass(students: seq<StudentRec>, id: nat): (r: seq<StudentRec>)
    ensures |r| == |students|
    ensures forall i :: 0 <= i < |r| ==> r[i].classId != Some(id)
    ensures forall i :: 0 <= i < |r| && students[i].classId != Some(id) ==> r[i] == students[i]
    ensures forall i :: 0 <= i < |r| && students[i].classId == Some(id) ==> r[i] == students[i].(classId := None)
  {
    seq(|students|, i requires 0 <= i < |students| =>
      if students[i].classId == Some(id) then students[i].(classId := None) else students[i])
  }

  function UnlinkStudentsFromDepartment(students: seq<StudentRec>, id: nat): (r: seq<StudentRec>)
    ensures |r| == |students|
    ensures forall i :: 0 <= i < |r| ==> r[i].departmentId != Some(id)
    ensures forall i :: 0 <= i < |r| && students[i].departmentId != Some(id) ==> r[i] == students[i]
    ensures forall i :: 0 <= i < |r| && students[i].departmentId == Some(id) ==> r[i] == students[i].(departmentId := None)
  {
    seq(|students|, i requires 0 <= i < |students| =>
      if students[i].departmentId == Some(id) then students[i].(departmentId := None) else students[i])
  }

  /** SET_NULL on the `class_name` of a document table. */
  function UnlinkDocsFromClass(docs: seq<Document>, id: nat): (r: seq<Document>)
    ensures |r| == |docs|
    ensures forall i :: 0 <= i < |r| ==> r[i].classId != Some(id)
    ensures forall i :: 0 <= i < |r| && docs[i].classId != Some(id) ==> r[i] == docs[i]
    ensures forall i :: 0 <= i < |r| && docs[i].classId == Some(id) ==> r[i] == docs[i].(classId := None)
  {
    seq(|docs|, i requires 0 <= i < |docs| =>
      if docs[i].classId == Some(id) then docs[i].(classId := None) else docs[i])
  }

  function UnlinkDocsFromDepartment(docs: seq<Document>, id: nat): (r: seq<Document>)
    ensures |r| == |docs|
    ensures forall i :: 0 <= i < |r| ==> r[i].departmentId != Some(id)
    ensures forall i :: 0 <= i < |r| && docs[i].departmentId != Some(id) ==> r[i] == docs[i]
    ensures forall i :: 0 <= i < |r| && docs[i].departmentId == Some(id) ==> r[i] == docs[i].(departmentId := None)
  {
    seq(|docs|, i requires 0 <= i < |docs| =>
      if docs[i].departmentId == Some(id) then docs[i].(departmentId := None) else docs[i])
  }

  /** A notice of the given type. */
  predicate OfNoticeType(n: Document, typeId: nat) {
    n.detail.NoticeDetail? && n.detail.noticeTypeId == typeId
  }

  /** CASCADE on `Notice.notice_type`. */
  function RemoveNoticesOfType(notices: seq<Document>, typeId: nat): (r: seq<Document>)
    ensures |r| <= |notices|
    ensures forall n :: n in r <==> n in notices && !OfNoticeType(n, typeId)
  {
    Filter(notices, (n: Document) => !OfNoticeType(n, typeId))
  }

  function RemoveNoticeType(types: seq<NoticeTypeRec>, id: nat): (r: seq<NoticeTypeRec>)
    ensures forall t :: t in r <==> t in types && t.id != id
  {
    Filter(types, (t: NoticeTypeRec) => t.id != id)
  }

  /** Every notice names an existing type (the foreign key is not nullable). */
  predicate NoticeTypesValid(notices: seq<Document>, types: seq<NoticeTypeRec>) {
    forall n :: n in notices ==> n.detail.NoticeDetail? && FindNoticeType(types, n.detail.noticeTypeId).Some?
  }

  // ---------------------------------------------------------------------
  // The tables as one value, and the deletes on it
  // ---------------------------------------------------------------------

  /** The six document tables, each with a nullable class and department. */
  datatype DocumentTables = DocumentTables(
    routines: seq<Document>,
    books: seq<Document>,
    syllabi: seq<Document>,
    results: seq<Document>,
    admissions: seq<Document>,
    notices: seq<Document>)

  predicate AllDocumentRefsValid(ds: DocumentTables, classes: seq<ClassRec>, departments: seq<DepartmentRec>) {
    && DocumentRefsValid(ds.routines, classes, departments)
    && DocumentRefsValid(ds.books, classes, departments)
    && DocumentRefsValid(ds.syllabi, classes, departments)
    && DocumentRefsValid(ds.results, classes, departments)
    && DocumentRefsValid(ds.admissions, classes, departments)
    && DocumentRefsValid(ds.notices, classes, departments)
  }

  function DocsUnlinkedFromClass(ds: DocumentTables, id: nat): DocumentTables {
    DocumentTables(UnlinkDocsFromClass(ds.routines, id), UnlinkDocsFromClass(ds.books, id), UnlinkDocsFromClass(ds.syllabi, id),
                   UnlinkDocsFromClass(ds.results, id), UnlinkDocsFromClass(ds.admissions, id), UnlinkDocsFromClass(ds.notices, id))
  }

  function DocsUnlinkedFromDepartment(ds: DocumentTables, id: nat): DocumentTables {
    DocumentTables(UnlinkDocsFromDepartment(ds.routines, id), UnlinkDocsFromDepartment(ds.books, id),
                   UnlinkDocsFromDepartment(ds.syllabi, id), UnlinkDocsFromDepartment(ds.results, id),
                   UnlinkDocsFromDepartment(ds.admissions, id), UnlinkDocsFromDepartment(ds.notices, id))
  }

  /** The tables that reference Class, Department or NoticeType. */
  datatype Tables = Tables(
    classes: seq<ClassRec>,
    departments: seq<DepartmentRec>,
    students: seq<StudentRec>,
    noticeTypes: seq<NoticeTypeRec>,
    documents: DocumentTables)

  /** Every foreign key names an existing row. */
  predicate Consistent(t: Tables) {
    && StudentRefsValid(t.students, t.classes, t.departments)
    && AllDocumentRefsValid(t.documents, t.classes, t.departments)
    && NoticeTypesValid(t.documents.notices, t.noticeTypes)
  }

  /** The tables after `Class.delete()`. */
  function ClassDeleted(t: Tables, id: nat): Tables {
    t.(classes := RemoveClass(t.classes, id),
       students := UnlinkStudentsFromClass(t.students, id),
       documents := DocsUnlinkedFromClass(t.documents, id))
  }

  /** The tables after `Department.delete()`. */
  function DepartmentDeleted(t: Tables, id: nat): Tables {
    t.(departments := RemoveDepartment(t.departments, id),
       students := UnlinkStudentsFromDepartment(t.students, id),
       documents := DocsUnlinkedFromDepartment(t.documents, id))
  }

  /** The tables after `NoticeType.delete()`. */
  function NoticeTypeDeleted(t: Tables, id: nat): Tables {
    t.(noticeTypes := RemoveNoticeType(t.noticeTypes, id),
       documents := t.documents.(notices := RemoveNoticesOfType(t.documents.notices, id)))
  }

  /** Deleting a class leaves no dangling reference, and no student refers to it. */
  lemma ClassDeleteKeepsConsistent(t: Tables, id: nat)
    requires Consistent(t)
    ensures Consistent(ClassDeleted(t, id))
    ensures forall s :: s in ClassDeleted(t, id).students ==> s.classId != Some(id)
  {
    var ds := t.documents;
    StudentRefsAfterClassDelete(t.students, t.classes, t.departments, id);
    DocRefsAfterClassDelete(ds.routines, t.classes, t.departments, id);
    DocRefsAfterClassDelete(ds.books, t.classes, t.departments, id);
    DocRefsAfterClassDelete(ds.syllabi, t.classes, t.departments, id);
    DocRefsAfterClassDelete(ds.results, t.classes, t.departments, id);
    DocRefsAfterClassDelete(ds.admissions, t.classes, t.departments, id);
    DocRefsAfterClassDelete(ds.notices, t.classes, t.departments, id);
    UnlinkKeepsNoticeTypes(ds.notices, t.noticeTypes, id);
  }

  lemma DepartmentDeleteKeepsConsistent(t: Tables, id: nat)
    requires Consistent(t)
    ensures Consistent(DepartmentDeleted(t, id))
    ensures forall s :: s in DepartmentDeleted(t, id).students ==> s.departmentId != Some(id)
  {
    var ds := t.documents;
    StudentRefsAfterDepartmentDelete(t.students, t.classes, t.departments, id);
    DocRefsAfterDepartmentDelete(ds.routines, t.classes, t.departments, id);
    DocRefsAfterDepartmentDelete(ds.books, t.classes, t.departments, id);
    DocRefsAfterDepartmentDelete(ds.syllabi, t.classes, t.departments, id);
    DocRefsAfterDepartmentDelete(ds.results, t.classes, t.departments, id);
    DocRefsAfterDepartmentDelete(ds.admissions, t.classes, t.departments, id);
    DocRefsAfterDepartmentDelete(ds.notices, t.classes, t.departments, id);
    UnlinkDepartmentKeepsNoticeTypes(ds.notices, t.noticeTypes, id);
  }

  lemma NoticeTypeDeleteKeepsConsistent(t: Tables, id: nat)
    requires Consistent(t)
    ensures Consistent(NoticeTypeDeleted(t, id))
    ensures forall n :: n in NoticeTypeDeleted(t, id).documents.notices ==> !OfNoticeType(n, id)
  {
    CascadeKeepsNoticeRefs(t.documents.notices, t.noticeTypes, t.classes, t.departments, id);
  }

  // ---------------------------------------------------------------------
  // The database
  // ---------------------------------------------------------------------

  class Database {
    var classes: seq<ClassRec>
    var departments: seq<DepartmentRec>
    var students: seq<StudentRec>
    var noticeTypes: seq<NoticeTypeRec>
    var documents: DocumentTables
    var schoolInfos: seq<SchoolInfoRec>
    var contactInfos: seq<ContactInfoRec>
    var contactMessages: seq<ContactMessageRec>

    /** An empty database. */
    constructor ()
      ensures Snapshot() == Tables([], [], [], [], DocumentTables([], [], [], [], [], []))
      ensures schoolInfos == [] && contactInfos == [] && contactMessages == []
    {
      classes, departments, students, noticeTypes := [], [], [], [];
      documents := DocumentTables([], [], [], [], [], []);
      schoolInfos, contactInfos, contactMessages := [], [], [];
    }

    /** The related tables, read together. */
    function Snapshot(): Tables
      reads this
    {
      Tables(classes, departments, students, noticeTypes, documents)
    }

    /** `Class.delete()`: the row goes and every row pointing at it is set
        to no class; the other tables are untouched. That the result is
        consistent again is ClassDeleteKeepsConsistent. */
    method DeleteClass(id: nat)
      modifies this`classes, this`students, this`documents
      ensures Snapshot() == ClassDeleted(old(Snapshot()), id)
    {
      students := UnlinkStudentsFromClass(students, id);
      documents := DocsUnlinkedFromClass(documents, id);
      classes := RemoveClass(classes, id);
    }

    /** `Department.delete()`. */
    method DeleteDepartment(id: nat)
      modifies this`departments, this`students, this`documents
      ensures Snapshot() == DepartmentDeleted(old(Snapshot()), id)
    {
      students := UnlinkStudentsFromDepartment(students, id);
      documents := DocsUnlinkedFromDepartment(documents, id);
      departments := RemoveDepartment(departments, id);
    }

    /** `NoticeType.delete()`: its notices are deleted with it. */
    method DeleteNoticeType(id: nat)
      modifies this`noticeTypes, this`documents
      ensures Snapshot() == NoticeTypeDeleted(old(Snapshot()), id)
    {
      documents := documents.(notices := RemoveNoticesOfType(documents.notices, id));
      noticeTypes := RemoveNoticeType(noticeTypes, id);
    }
  }

  // ---------------------------------------------------------------------
  // Deletes keep every foreign key pointing at an existing row
  // ---------------------------------------------------------------------

  /** A class other than the deleted one is still found after the delete. */
  lemma FindClassAfterRemove(classes: seq<ClassRec>, id: nat, k: nat)
    requires k != id && FindClass(classes, k).Some?
    ensures FindClass(RemoveClass(classes, id), k).Some?
  {
    var c := FindClass(classes, k).value;
    assert c in RemoveClass(classes, id);
  }

  lemma FindDepartmentAfterRemove(departments: seq<DepartmentRec>, id: nat, k: nat)
    requires k != id && FindDepartment(departments, k).Some?
    ensures FindDepartment(RemoveDepartment(departments, id), k).Some?
  {
    var d := FindDepartment(departments, k).value;
    assert d in RemoveDepartment(departments, id);
  }

  lemma StudentRefsAfterClassDelete(students: seq<StudentRec>, classes: seq<ClassRec>, departments: seq<DepartmentRec>, id: nat)
    requires StudentRefsValid(students, classes, departments)
    ensures StudentRefsValid(UnlinkStudentsFromClass(students, id), RemoveClass(classes, id), departments)
  {
    var after := UnlinkStudentsFromClass(students, id);
    forall s | s in after
      ensures s.classId.Some? ==> FindClass(RemoveClass(classes, id), s.classId.value).Some?
      ensures s.departmentId.Some? ==> FindDepartment(departments, s.departmentId.value).Some?
    {
      var i :| 0 <= i < |after| && after[i] == s;
      assert students[i] in students;
      if s.classId.Some? {
        FindClassAfterRemove(classes, id, s.classId.value);
      }
    }
  }

  lemma DocRefsAfterClassDelete(docs: seq<Document>, classes: seq<ClassRec>, departments: seq<DepartmentRec>, id: nat)
    requires DocumentRefsValid(docs, classes, departments)
    ensures DocumentRefsValid(UnlinkDocsFromClass(docs, id), RemoveClass(classes, id), departments)
  {
    var after := UnlinkDocsFromClass(docs, id);
    forall d | d in after
      ensures d.classId.Some? ==> FindClass(RemoveClass(classes, id), d.classId.value).Some?
      ensures d.departmentId.Some? ==> FindDepartment(departments, d.departmentId.value).Some?
    {
      var i :| 0 <= i < |after| && after[i] == d;
      assert docs[i] in docs;
      if d.classId.Some? {
        FindClassAfterRemove(classes, id, d.classId.value);
      }
    }
  }

  lemma StudentRefsAfterDepartmentDelete(students: seq<StudentRec>, classes: seq<ClassRec>, departments: seq<DepartmentRec>, id: nat)
    requires StudentRefsValid(students, classes, departments)
    ensures StudentRefsValid(UnlinkStudentsFromDepartment(students, id), classes, RemoveDepartment(departments, id))
  {
    var after := UnlinkStudentsFromDepartment(students, id);
    forall s | s in after
      ensures s.classId.Some? ==> FindClass(classes, s.classId.value).Some?
      ensures s.departmentId.Some? ==> FindDepartment(RemoveDepartment(departments, id), s.departmentId.value).Some?
    {
      var i :| 0 <= i < |after| && after[i] == s;
      assert students[i] in students;
      if s.departmentId.Some? {
        FindDepartmentAfterRemove(departments, id, s.departmentId.value);
      }
    }
  }

  lemma DocRefsAfterDepartmentDelete(docs: seq<Document>, classes: seq<ClassRec>, departments: seq<DepartmentRec>, id: nat)
    requires DocumentRefsValid(docs, classes, departments)
    ensures DocumentRefsValid(UnlinkDocsFromDepartment(docs, id), classes, RemoveDepartment(departments, id))
  {
    var after := UnlinkDocsFromDepartment(docs, id);
    forall d | d in after
      ensures d.classId.Some? ==> FindClass(classes, d.classId.value).Some?
      ensures d.departmentId.Some? ==> FindDepartment(RemoveDepartment(departments, id), d.departmentId.value).Some?
    {
      var i :| 0 <= i < |after| && after[i] == d;
      assert docs[i] in docs;
      if d.departmentId.Some? {
        FindDepartmentAfterRemove(departments, id, d.departmentId.value);
      }
    }
  }

  /** Clearing a notice's class or department does not touch its type. */
  lemma UnlinkKeepsNoticeTypes(notices: seq<Document>, types: seq<NoticeTypeRec>, id: nat)
    requires NoticeTypesValid(notices, types)
    ensures NoticeTypesValid(UnlinkDocsFromClass(notices, id), types)
  {
    var after := UnlinkDocsFromClass(notices, id);
    forall n | n in after
      ensures n.detail.NoticeDetail? && FindNoticeType(types, n.detail.noticeTypeId).Some?
    {
      var i :| 0 <= i < |after| && after[i] == n;
      assert notices[i] in notices;
    }
  }

  lemma UnlinkDepartmentKeepsNoticeTypes(notices: seq<Document>, types: seq<NoticeTypeRec>, id: nat)
    requires NoticeTypesValid(notices, types)
    ensures NoticeTypesValid(UnlinkDocsFromDepartment(notices, id), types)
  {
    var after := UnlinkDocsFromDepartment(notices, id);
    forall n | n in after
      ensures n.detail.NoticeDetail? && FindNoticeType(types, n.detail.noticeTypeId).Some?
    {
      var i :| 0 <= i < |after| && after[i] == n;
      assert notices[i] in notices;
    }
  }

  /** After a cascade, every remaining notice still has its type and its
      class and department. */
  lemma CascadeKeepsNoticeRefs(notices: seq<Document>, types: seq<NoticeTypeRec>, classes: seq<ClassRec>,
                               departments: seq<DepartmentRec>, id: nat)
    requires NoticeTypesValid(notices, types) && DocumentRefsValid(notices, classes, departments)
    ensures NoticeTypesValid(RemoveNoticesOfType(notices, id), RemoveNoticeType(types, id))
    ensures DocumentRefsValid(RemoveNoticesOfType(notices, id), classes, departments)
  {
    forall n | n in RemoveNoticesOfType(notices, id)
      ensures FindNoticeType(RemoveNoticeType(types, id), n.detail.noticeTypeId).Some?
    {
      var t := FindNoticeType(types, n.detail.noticeTypeId).value;
      assert t in RemoveNoticeType(types, id);
    }
  }
}

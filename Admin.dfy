// The admin actions of web/admin.py that change the tables:
// ClassAdmin.delete_model, which first detaches the class's students and
// then deletes the class, and the single-row rule of SchoolInfoAdmin and
// ContactInfoAdmin, whose add permission holds only while the table is empty.

module Admin {
  import opened Common
  import opened Records
  import opened Store

  /** Detaching twice is detaching once. */
  lemma UnlinkStudentsIdempotent(students: seq<StudentRec>, id: nat)
    ensures UnlinkStudentsFromClass(UnlinkStudentsFromClass(students, id), id) == UnlinkStudentsFromClass(students, id)
  {
    var once := UnlinkStudentsFromClass(students, id);
    var twice := UnlinkStudentsFromClass(once, id);
    assert forall i :: 0 <= i < |once| ==> twice[i] == once[i];
  }

  /** ClassAdmin.delete_model: `obj.students.update(class_name=None)`, then
      the ordinary delete. The bulk update makes the delete's own SET_NULL
      on students find nothing left to do, so the outcome is the delete's. */
  method ClassAdminDeleteModel(db: Database, obj: ClassRec)
    modifies db`classes, db`students, db`documents
    ensures db.Snapshot() == ClassDeleted(old(db.Snapshot()), obj.id)
  {
    db.students := UnlinkStudentsFromClass(db.students, obj.id);
    UnlinkStudentsIdempotent(old(db.students), obj.id);
    db.DeleteClass(obj.id);
  }

  /** What delete_model leaves behind: no student points at the class, no
      student row is removed, students of other classes or of none are
      untouched, the class row is gone and every other class stays. */
  lemma DeleteModelOutcome(t: Tables, id: nat)
    ensures var after := ClassDeleted(t, id);
      && (forall s :: s in after.students ==> s.classId != Some(id))
      && |after.students| == |t.students|
      && (forall i :: 0 <= i < |t.students| && t.students[i].classId != Some(id) ==> after.students[i] == t.students[i])
      && FindClass(after.classes, id).None?
      && (forall c :: c in t.classes && c.id != id ==> c in after.classes)
      && after.departments == t.departments
  {
    var after := ClassDeleted(t, id);
    forall s | s in after.students ensures s.classId != Some(id) {
      var i :| 0 <= i < |after.students| && after.students[i] == s;
    }
  }

  // ---------------------------------------------------------------------
  // Single-row tables
  // ---------------------------------------------------------------------

  /** `has_add_permission`: `Model.objects.count() == 0`; an add that the
      admin allows appends the row, one it refuses leaves the table. */
  function AddIfEmpty<T>(rows: seq<T>, row: T): (r: seq<T>)
    ensures |rows| == 0 ==> r == [row]
    ensures |rows| > 0 ==> r == rows
  {
    if |rows| == 0 then [row] else rows
  }

  /** A series of add requests through the admin. */
  function AdminAdds<T>(rows: seq<T>, requests: seq<T>): seq<T>
    decreases |requests|
  {
    if requests == [] then rows else AdminAdds(AddIfEmpty(rows, requests[0]), requests[1..])
  }

  /** However many adds are requested, a table that held at most one row
      holds at most one; an empty table ends with the first requested row. */
  lemma {:induction false} AdminAddsKeepSingleRow<T>(rows: seq<T>, requests: seq<T>)
    requires |rows| <= 1
    ensures |AdminAdds(rows, requests)| <= 1
    ensures rows == [] && requests != [] ==> AdminAdds(rows, requests) == [requests[0]]
    ensures rows != [] ==> AdminAdds(rows, requests) == rows
    decreases |requests|
  {
    if requests != [] {
      AdminAddsKeepSingleRow(AddIfEmpty(rows, requests[0]), requests[1..]);
    }
  }

  /** SchoolInfoAdmin: add a row only when there is none. */
  method AddSchoolInfo(db: Database, info: SchoolInfoRec) returns (added: bool)
    modifies db`schoolInfos
    ensures added <==> old(|db.schoolInfos|) == 0
    ensures db.schoolInfos == AddIfEmpty(old(db.schoolInfos), info)
  {
    added := |db.schoolInfos| == 0;
    if added {
      db.schoolInfos := db.schoolInfos + [info];
    }
  }

  /** ContactInfoAdmin: add a row only when there is none. */
  method AddContactInfo(db: Database, info: ContactInfoRec) returns (added: bool)
    modifies db`contactInfos
    ensures added <==> old(|db.contactInfos|) == 0
    ensures db.contactInfos == AddIfEmpty(old(db.contactInfos), info)
  {
    added := |db.contactInfos| == 0;
    if added {
      db.contactInfos := db.contactInfos + [info];
    }
  }
}

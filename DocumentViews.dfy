// The JSON rows of filter_routines, filter_books, filter_syllabus,
// filter_results and filter_admissions (web/views.py): each listed row is
// serialised by an append loop, with "" for an absent class or department
// and a fixed `/download-<kind>/<id>/` URL.

module DocumentViews {
  import opened Common
  import opened Records
  import opened Listing

  /** What the request and the settings contribute to a URL: the scheme and
      host `request.build_absolute_uri` prepends, and MEDIA_URL. */
  datatype Site = Site(origin: string, mediaUrl: string)

  /** The path segment of each download route (web/urls.py, notice/urls.py). */
  function DownloadSegment(q: Query): string {
    match q
    case RoutineQuery(_) => "routine"
    case BookQuery => "book"
    case SyllabusQuery => "syllabus"
    case ResultQuery => "result"
    case AdmissionQuery => "admission"
    case NoticeQuery(_) => "notice"
  }

  /** `/download-<segment>/<id>/`. */
  function DownloadPath(segment: string, id: nat): string {
    "/download-" + segment + "/" + NatToString(id) + "/"
  }

  /** Two rows of one table never share a download path. */
  lemma {:induction false} DownloadPathInjective(segment: string, a: nat, b: nat)
    requires DownloadPath(segment, a) == DownloadPath(segment, b)
    ensures a == b
  {
    var head := "/download-" + segment + "/";
    var pa, pb := DownloadPath(segment, a), DownloadPath(segment, b);
    assert pa == head + NatToString(a) + "/";
    assert pb == head + NatToString(b) + "/";
    assert NatToString(a) == pa[|head|..|pa| - 1];
    assert NatToString(b) == pb[|head|..|pb| - 1];
    NatToStringInjective(a, b);
  }

  /** `FieldFile.url`: MEDIA_URL followed by the stored name; with no file
      Django raises ValueError. */
  function FileUrl(site: Site, file: string): (r: Result<string>)
    ensures r.Ok? <==> file != ""
    ensures r.Ok? ==> r.value == site.mediaUrl + file
  {
    if file == "" then Failure(NoFileMessage) else Ok(site.mediaUrl + file)
  }

  const NoFileMessage: string := "The 'file' attribute has no file associated with it."

  /** One serialised row. `updatedAt` keeps the timestamp the view formats. */
  datatype DocRecord = DocRecord(
    id: nat,
    title: string,
    className: string,
    department: string,
    updatedAt: int,
    fileUrl: string,
    downloadUrl: string)

  /** The dictionary one iteration appends; books and syllabus make both URLs
      absolute, syllabus gives "" for a missing file instead of raising. */
  function SerializeRow(classes: seq<ClassRec>, departments: seq<DepartmentRec>, site: Site, q: Query, d: Document): (r: Result<DocRecord>)
    requires !q.NoticeQuery?
    ensures r.Failure? <==> d.file == "" && !q.SyllabusQuery?
    ensures r.Ok? ==> r.value.id == d.id && r.value.title == d.title && r.value.updatedAt == d.updatedAt
    ensures r.Ok? ==> r.value.className == ClassNameOf(classes, d.classId)
    ensures r.Ok? ==> r.value.department == DepartmentNameOf(departments, d.departmentId)
  {
    match RowFileUrl(site, q, d.file)
    case Failure(e) => Failure(e)
    case Ok(u) => Ok(DocRecord(d.id, d.title, ClassNameOf(classes, d.classId),
                               DepartmentNameOf(departments, d.departmentId), d.updatedAt, u,
                               RowDownloadUrl(site, q, d.id)))
  }

  /** The `file_url` of a row: absolute for books and syllabus, where a
      syllabus without a file gives "" instead of raising. */
  function RowFileUrl(site: Site, q: Query, file: string): Result<string> {
    match q
    case BookQuery => if file == "" then Failure(NoFileMessage) else Ok(site.origin + site.mediaUrl + file)
    case SyllabusQuery => Ok(if file != "" then site.origin + site.mediaUrl + file else "")
    case _ => FileUrl(site, file)
  }

  /** The `download_url` of a row: absolute for books and syllabus. */
  function RowDownloadUrl(site: Site, q: Query, id: nat): string {
    var path := DownloadPath(DownloadSegment(q), id);
    if q.BookQuery? || q.SyllabusQuery? then site.origin + path else path
  }

  /** The two URLs of a serialised row: books and syllabus make both
      absolute, a syllabus without a file gets "" as its file URL, and the
      other kinds give MEDIA_URL plus the name and the relative download path. */
  lemma RowUrls(classes: seq<ClassRec>, departments: seq<DepartmentRec>, site: Site, q: Query, d: Document)
    requires !q.NoticeQuery?
    requires SerializeRow(classes, departments, site, q, d).Ok?
    ensures var row := SerializeRow(classes, departments, site, q, d).value;
      && ((q.BookQuery? || q.SyllabusQuery?) ==> row.downloadUrl == site.origin + DownloadPath(DownloadSegment(q), d.id))
      && (!(q.BookQuery? || q.SyllabusQuery?) ==> row.downloadUrl == DownloadPath(DownloadSegment(q), d.id))
      && (q.BookQuery? ==> row.fileUrl == site.origin + site.mediaUrl + d.file)
      && (q.SyllabusQuery? ==> row.fileUrl == if d.file != "" then site.origin + site.mediaUrl + d.file else "")
      && (!(q.BookQuery? || q.SyllabusQuery?) ==> row.fileUrl == site.mediaUrl + d.file)
  {
  }

  /** The `for row in rows: data.append({...})` loop; the first row whose
      file URL raises aborts the response. */
  method SerializeRows(classes: seq<ClassRec>, departments: seq<DepartmentRec>, site: Site, q: Query, rows: seq<Document>)
    returns (r: Result<seq<DocRecord>>)
    requires !q.NoticeQuery?
    ensures r.Ok? <==> forall i :: 0 <= i < |rows| ==> SerializeRow(classes, departments, site, q, rows[i]).Ok?
    ensures r.Ok? ==> |r.value| == |rows|
    ensures r.Ok? ==> forall i :: 0 <= i < |rows| ==> r.value[i] == SerializeRow(classes, departments, site, q, rows[i]).value
  {
    var data: seq<DocRecord> := [];
    var i := 0;
    while i < |rows|
      invariant 0 <= i <= |rows|
      invariant |data| == i
      invariant forall k :: 0 <= k < i ==> SerializeRow(classes, departments, site, q, rows[k]).Ok?
      invariant forall k :: 0 <= k < i ==> data[k] == SerializeRow(classes, departments, site, q, rows[k]).value
    {
      var row := SerializeRow(classes, departments, site, q, rows[i]);
      if row.Failure? {
        return Failure(row.error);
      }
      data := data + [row.value];
      i := i + 1;
    }
    return Ok(data);
  }

  /** One of the five document endpoints: the listing of `docs` under the
      request's parameters, serialised row by row in listing order. */
  method FilterDocuments(classes: seq<ClassRec>, departments: seq<DepartmentRec>, site: Site, q: Query,
                         classIdParam: Option<string>, deptSlugParam: Option<string>, docs: seq<Document>)
    returns (r: Result<seq<DocRecord>>)
    requires !q.NoticeQuery?
    ensures var rows := ListedRows(departments, [], q, ScopeOf(classIdParam, deptSlugParam), docs);
      && (r.Ok? <==> forall i :: 0 <= i < |rows| ==> rows[i].file != "" || q.SyllabusQuery?)
      && (r.Ok? ==> |r.value| == |rows|
                    && forall i :: 0 <= i < |rows| ==> r.value[i] == SerializeRow(classes, departments, site, q, rows[i]).value)
  {
    var scope := ScopeOf(classIdParam, deptSlugParam);
    var rows := ListedRows(departments, [], q, scope, docs);
    r := SerializeRows(classes, departments, site, q, rows);
  }

  /** filter_routines: `type` defaults to 'class'. */
  method FilterRoutines(classes: seq<ClassRec>, departments: seq<DepartmentRec>, site: Site,
                        typeParam: Option<string>, classIdParam: Option<string>, deptSlugParam: Option<string>, docs: seq<Document>)
    returns (r: Result<seq<DocRecord>>)
    ensures var rows := ListedRows(departments, [], RoutineQuery(RoutineCategory(typeParam)), ScopeOf(classIdParam, deptSlugParam), docs);
      r.Ok? ==> |r.value| == |rows|
                && forall i :: 0 <= i < |rows| ==>
                     rows[i].isActive && rows[i].detail.RoutineDetail? && rows[i].detail.category == typeParam.GetOr("class")
                     && r.value[i].id == rows[i].id
                     && r.value[i].downloadUrl == DownloadPath("routine", rows[i].id)
  {
    var q := RoutineQuery(RoutineCategory(typeParam));
    ghost var rows := ListedRows(departments, [], q, ScopeOf(classIdParam, deptSlugParam), docs);
    RoutinesOfCategory(departments, typeParam, ScopeOf(classIdParam, deptSlugParam), docs);
    r := FilterDocuments(classes, departments, site, q, classIdParam, deptSlugParam, docs);
    if r.Ok? {
      forall i | 0 <= i < |rows|
        ensures rows[i].isActive && rows[i].detail.RoutineDetail? && rows[i].detail.category == typeParam.GetOr("class")
        ensures r.value[i].id == rows[i].id && r.value[i].downloadUrl == DownloadPath("routine", rows[i].id)
      {
        assert rows[i] in rows;
        assert SerializeRow(classes, departments, site, q, rows[i]).Ok?;
        RowUrls(classes, departments, site, q, rows[i]);
      }
    }
  }

  /** In every serialised row an absent class or department reads as "". */
  lemma AbsentRelationsReadEmpty(classes: seq<ClassRec>, departments: seq<DepartmentRec>, site: Site, q: Query, d: Document)
    requires !q.NoticeQuery?
    requires SerializeRow(classes, departments, site, q, d).Ok?
    ensures d.classId.None? ==> SerializeRow(classes, departments, site, q, d).value.className == ""
    ensures d.departmentId.None? ==> SerializeRow(classes, departments, site, q, d).value.department == ""
  {
  }

  /** Distinct rows listed by one endpoint carry distinct download URLs. */
  lemma DownloadUrlsDistinct(classes: seq<ClassRec>, departments: seq<DepartmentRec>, site: Site, q: Query, d1: Document, d2: Document)
    requires !q.NoticeQuery?
    requires SerializeRow(classes, departments, site, q, d1).Ok? && SerializeRow(classes, departments, site, q, d2).Ok?
    requires SerializeRow(classes, departments, site, q, d1).value.downloadUrl == SerializeRow(classes, departments, site, q, d2).value.downloadUrl
    ensures d1.id == d2.id
  {
    var seg := DownloadSegment(q);
    RowUrls(classes, departments, site, q, d1);
    RowUrls(classes, departments, site, q, d2);
    if q.BookQuery? || q.SyllabusQuery? {
      var u1 := site.origin + DownloadPath(seg, d1.id);
      var u2 := site.origin + DownloadPath(seg, d2.id);
      assert DownloadPath(seg, d1.id) == u1[|site.origin|..];
      assert DownloadPath(seg, d2.id) == u2[|site.origin|..];
    }
    DownloadPathInjective(seg, d1.id, d2.id);
  }
}

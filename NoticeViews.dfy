// filter_notices (notice/views.py): the notice cards, one dictionary per
// listed notice, built by an append loop. The card's random background
// colour is not part of this model.

module NoticeViews {
  import opened Common
  import opened Records
  import opened Listing
  import opened DocumentViews

  /** One notice card. */
  datatype NoticeRecord = NoticeRecord(
    id: nat,
    title: string,
    shortDescription: string,
    fileUrl: string,
    downloadUrl: string,
    noticeType: string,
    className: string,
    department: string)

  const NoTypeMessage: string := "Notice has no notice_type."

  /** The type row of a notice; `notice.notice_type` raises when it is missing. */
  function TypeOf(types: seq<NoticeTypeRec>, d: Document): (r: Option<NoticeTypeRec>)
    ensures r.Some? <==> d.detail.NoticeDetail? && FindNoticeType(types, d.detail.noticeTypeId).Some?
    ensures r.Some? ==> r.value in types && r.value.id == d.detail.noticeTypeId
  {
    if d.detail.NoticeDetail? then FindNoticeType(types, d.detail.noticeTypeId) else None
  }

  /** The dictionary one iteration appends: `notice.file.url` raises for a
      notice without a file. */
  function SerializeNotice(classes: seq<ClassRec>, departments: seq<DepartmentRec>, types: seq<NoticeTypeRec>,
                           site: Site, d: Document): (r: Result<NoticeRecord>)
    ensures r.Ok? <==> d.file != "" && TypeOf(types, d).Some?
    ensures r.Ok? ==> r.value.id == d.id && r.value.title == d.title
                      && r.value.shortDescription == d.detail.shortDescription
                      && r.value.fileUrl == site.mediaUrl + d.file
                      && r.value.downloadUrl == DownloadPath("notice", d.id)
                      && r.value.noticeType == TypeOf(types, d).value.name
                      && r.value.className == ClassNameOf(classes, d.classId)
                      && r.value.department == DepartmentNameOf(departments, d.departmentId)
  {
    match FileUrl(site, d.file)
    case Failure(e) => Failure(e)
    case Ok(u) =>
      match TypeOf(types, d)
      case None => Failure(NoTypeMessage)
      case Some(t) =>
        Ok(NoticeRecord(d.id, d.title, d.detail.shortDescription, u, DownloadPath("notice", d.id), t.name,
                        ClassNameOf(classes, d.classId), DepartmentNameOf(departments, d.departmentId)))
  }

  /** The `for notice in notices: notices_data.append({...})` loop; the first
      notice that cannot be serialised aborts the response. */
  method SerializeNotices(classes: seq<ClassRec>, departments: seq<DepartmentRec>, types: seq<NoticeTypeRec>, site: Site,
                          rows: seq<Document>)
    returns (r: Result<seq<NoticeRecord>>)
    ensures r.Ok? <==> forall i :: 0 <= i < |rows| ==> rows[i].file != "" && TypeOf(types, rows[i]).Some?
    ensures r.Ok? ==> |r.value| == |rows|
    ensures r.Ok? ==> forall i :: 0 <= i < |rows| ==> r.value[i] == SerializeNotice(classes, departments, types, site, rows[i]).value
  {
    var data: seq<NoticeRecord> := [];
    var i := 0;
    while i < |rows|
      invariant 0 <= i <= |rows|
      invariant |data| == i
      invariant forall k :: 0 <= k < i ==> rows[k].file != "" && TypeOf(types, rows[k]).Some?
      invariant forall k :: 0 <= k < i ==> data[k] == SerializeNotice(classes, departments, types, site, rows[k]).value
    {
      var card := SerializeNotice(classes, departments, types, site, rows[i]);
      if card.Failure? {
        return Failure(card.error);
      }
      data := data + [card.value];
      i := i + 1;
    }
    return Ok(data);
  }

  /** filter_notices: the active notices of the requested type (when a
      `type_slug` is given), narrowed by class id or department slug, newest
      first, serialised in that order. */
  method FilterNotices(classes: seq<ClassRec>, departments: seq<DepartmentRec>, types: seq<NoticeTypeRec>, site: Site,
                       typeSlugParam: Option<string>, classIdParam: Option<string>, deptSlugParam: Option<string>,
                       notices: seq<Document>)
    returns (r: Result<seq<NoticeRecord>>)
    ensures var rows := ListedRows(departments, types, NoticeQuery(typeSlugParam), ScopeOf(classIdParam, deptSlugParam), notices);
      && (r.Ok? <==> forall i :: 0 <= i < |rows| ==> rows[i].file != "" && TypeOf(types, rows[i]).Some?)
      && (r.Ok? ==> |r.value| == |rows|
                    && forall i :: 0 <= i < |rows| ==> r.value[i] == SerializeNotice(classes, departments, types, site, rows[i]).value)
  {
    var rows := ListedRows(departments, types, NoticeQuery(typeSlugParam), ScopeOf(classIdParam, deptSlugParam), notices);
    r := SerializeNotices(classes, departments, types, site, rows);
  }

  /** With a type slug given, every card shows a type of that slug, and the
      cards are those of the unnarrowed listing that have that type. */
  lemma CardsOfRequestedType(classes: seq<ClassRec>, departments: seq<DepartmentRec>, types: seq<NoticeTypeRec>, site: Site,
                             typeSlug: string, scope: Scope, notices: seq<Document>)
    requires typeSlug != ""
    ensures forall d :: d in ListedRows(departments, types, NoticeQuery(Some(typeSlug)), scope, notices) ==>
      TypeOf(types, d).Some? && TypeOf(types, d).value.slug == typeSlug
      && (SerializeNotice(classes, departments, types, site, d).Ok? ==>
            exists t :: t in types && t.slug == typeSlug
                        && SerializeNotice(classes, departments, types, site, d).value.noticeType == t.name)
  {
    NoticeTypeNarrows(departments, types, typeSlug, scope, notices);
  }

  /** Two cards with the same download URL are the same notice. */
  lemma NoticeDownloadUrlsDistinct(classes: seq<ClassRec>, departments: seq<DepartmentRec>, types: seq<NoticeTypeRec>, site: Site,
                                   d1: Document, d2: Document)
    requires SerializeNotice(classes, departments, types, site, d1).Ok?
    requires SerializeNotice(classes, departments, types, site, d2).Ok?
    requires SerializeNotice(classes, departments, types, site, d1).value.downloadUrl
             == SerializeNotice(classes, departments, types, site, d2).value.downloadUrl
    ensures d1.id == d2.id
  {
    DownloadPathInjective("notice", d1.id, d2.id);
  }
}

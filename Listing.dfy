// The listing rule shared by filter_routines, filter_books, filter_syllabus,
// filter_results, filter_admissions (web/views.py) and filter_notices
// (notice/views.py): keep the active rows of one table that the endpoint's
// own criterion accepts, narrow them to one class or one department, and
// order them newest first.

module Listing {
  import opened Common
  import opened Records

  /** Which listing is asked for, with the endpoint's own criterion. */
  datatype Query =
    | RoutineQuery(category: string)        // `type` parameter, 'class' when absent
    | BookQuery
    | SyllabusQuery                         // also `.exclude(file='')`
    | ResultQuery
    | AdmissionQuery
    | NoticeQuery(typeSlug: Option<string>) // `type_slug` parameter

  /** The `routine_type = request.GET.get('type', 'class')` default. */
  function RoutineCategory(typeParam: Option<string>): (c: string)
    ensures typeParam.None? ==> c == "class"
    ensures typeParam.Some? ==> c == typeParam.value
  {
    typeParam.GetOr("class")
  }

  /** The narrowing chosen by the `class_id` and `dept_slug` parameters. */
  datatype Scope = ByClass(classId: nat) | ByDepartment(slug: string) | Unscoped

  /** `if class_id and class_id.isdigit(): ... elif dept_slug: ...`. */
  function ScopeOf(classId: Option<string>, deptSlug: Option<string>): (s: Scope)
    ensures s.ByClass? <==> classId.Some? && IsDigits(classId.value)
    ensures s.ByClass? ==> s.classId == DigitsValue(classId.value)
    ensures s.ByDepartment? <==> !(classId.Some? && IsDigits(classId.value)) && Given(deptSlug)
    ensures s.ByDepartment? ==> s.slug == deptSlug.value
  {
    if Given(classId) && IsDigits(classId.value) then ByClass(DigitsValue(classId.value))
    else if Given(deptSlug) then ByDepartment(deptSlug.value)
    else Unscoped
  }

  /** A class id given as digits decides alone: the department slug is then ignored. */
  lemma ClassTakesPrecedence(classId: string, d1: Option<string>, d2: Option<string>)
    requires IsDigits(classId)
    ensures ScopeOf(Some(classId), d1) == ScopeOf(Some(classId), d2)
  {
  }

  /** A class id that is not all digits is treated as if it were absent. */
  lemma NonDigitClassIgnored(classId: string, deptSlug: Option<string>)
    requires !IsDigits(classId)
    ensures ScopeOf(Some(classId), deptSlug) == ScopeOf(None, deptSlug)
  {
  }

  predicate InScope(departments: seq<DepartmentRec>, scope: Scope, d: Document) {
    match scope
    case ByClass(n) => d.classId == Some(n)
    case ByDepartment(slug) => InDepartmentWithSlug(departments, d.departmentId, slug)
    case Unscoped => true
  }

  /** The endpoint's own criterion on a row. */
  predicate QueryAccepts(types: seq<NoticeTypeRec>, q: Query, d: Document) {
    match q
    case RoutineQuery(category) => d.detail.RoutineDetail? && d.detail.category == category
    case SyllabusQuery => d.file != ""
    case NoticeQuery(typeSlug) =>
      !Given(typeSlug)
      || (d.detail.NoticeDetail?
          && FindNoticeType(types, d.detail.noticeTypeId).Some?
          && FindNoticeType(types, d.detail.noticeTypeId).value.slug == typeSlug.value)
    case _ => true
  }

  /** Whether a row survives the filter chain of the endpoint. */
  predicate Keeps(departments: seq<DepartmentRec>, types: seq<NoticeTypeRec>, q: Query, scope: Scope, d: Document) {
    d.isActive && QueryAccepts(types, q, d) && InScope(departments, scope, d)
  }

  /** Routines, books and syllabus are ordered by `-updated_at`; results,
      admissions and notices by `-created_at`. */
  function SortKey(q: Query, d: Document): int {
    if q.RoutineQuery? || q.BookQuery? || q.SyllabusQuery? then d.updatedAt else d.createdAt
  }

  predicate NewestFirst(q: Query, rows: seq<Document>) {
    forall i, j :: 0 <= i < j < |rows| ==> SortKey(q, rows[i]) >= SortKey(q, rows[j])
  }

  /** Puts `d` in front of the first row that is not newer than it. */
  function InsertByKey(q: Query, d: Document, rows: seq<Document>): (r: seq<Document>)
    requires NewestFirst(q, rows)
    ensures NewestFirst(q, r)
    ensures multiset(r) == multiset(rows) + multiset{d}
  {
    if rows == [] then [d]
    else if SortKey(q, rows[0]) > SortKey(q, d) then
      var rest := InsertByKey(q, d, rows[1..]);
      assert rows == [rows[0]] + rows[1..];
      forall x | x in rest ensures SortKey(q, x) <= SortKey(q, rows[0]) {
        assert x in multiset(rest);
        assert x == d || x in multiset(rows[1..]);
      }
      PrependKeepsOrder(q, rows[0], rest);
      [rows[0]] + rest
    else
      PrependKeepsOrder(q, d, rows);
      [d] + rows
  }

  lemma PrependKeepsOrder(q: Query, x: Document, rows: seq<Document>)
    requires NewestFirst(q, rows)
    requires forall y :: y in rows ==> SortKey(q, y) <= SortKey(q, x)
    ensures NewestFirst(q, [x] + rows)
  {
    var r := [x] + rows;
    forall i, j | 0 <= i < j < |r| ensures SortKey(q, r[i]) >= SortKey(q, r[j]) {
      assert r[j] == rows[j - 1];
      if i > 0 {
        assert r[i] == rows[i - 1];
      }
    }
  }

  /** `order_by('-<key>')`: the same rows, newest first. */
  function SortNewestFirst(q: Query, rows: seq<Document>): (r: seq<Document>)
    ensures NewestFirst(q, r)
    ensures multiset(r) == multiset(rows)
  {
    if rows == [] then []
    else
      assert rows == [rows[0]] + rows[1..];
      InsertByKey(q, rows[0], SortNewestFirst(q, rows[1..]))
  }

  /** The rows an endpoint lists, in the order it lists them. */
  function ListedRows(departments: seq<DepartmentRec>, types: seq<NoticeTypeRec>, q: Query, scope: Scope, docs: seq<Document>): (r: seq<Document>)
    ensures NewestFirst(q, r)
    ensures forall d :: multiset(r)[d] == if Keeps(departments, types, q, scope, d) then multiset(docs)[d] else 0
  {
    SortNewestFirst(q, Filter(docs, d => Keeps(departments, types, q, scope, d)))
  }

  /** Filtering only removes rows: a row is listed exactly when it is in the
      table and passes the filter chain, and nothing is listed twice that is
      not twice in the table. */
  lemma ListingMembers(departments: seq<DepartmentRec>, types: seq<NoticeTypeRec>, q: Query, scope: Scope, docs: seq<Document>)
    ensures var r := ListedRows(departments, types, q, scope, docs);
      |r| <= |docs|
      && forall d :: d in r <==> d in docs && Keeps(departments, types, q, scope, d)
  {
    var r := ListedRows(departments, types, q, scope, docs);
    var kept := Filter(docs, d => Keeps(departments, types, q, scope, d));
    assert multiset(r) == multiset(kept);
    assert |r| == |multiset(r)| == |multiset(kept)| == |kept|;
    forall d ensures d in r <==> d in docs && Keeps(departments, types, q, scope, d) {
      assert d in r <==> d in multiset(r);
      assert d in docs <==> d in multiset(docs);
    }
  }

  /** Every routine listed is active and of the requested category
      ('class' when the parameter is absent). */
  lemma RoutinesOfCategory(departments: seq<DepartmentRec>, typeParam: Option<string>, scope: Scope, docs: seq<Document>)
    ensures forall d :: d in ListedRows(departments, [], RoutineQuery(RoutineCategory(typeParam)), scope, docs) ==>
      d.isActive && d.detail.RoutineDetail? && d.detail.category == typeParam.GetOr("class")
  {
    ListingMembers(departments, [], RoutineQuery(RoutineCategory(typeParam)), scope, docs);
  }

  /** With a class id in digits, only that class's rows are listed, whatever the department slug. */
  lemma ClassScopeListsThatClass(departments: seq<DepartmentRec>, types: seq<NoticeTypeRec>, q: Query,
                                 classId: string, deptSlug: Option<string>, docs: seq<Document>)
    requires IsDigits(classId)
    ensures forall d :: d in ListedRows(departments, types, q, ScopeOf(Some(classId), deptSlug), docs) ==>
      d.classId == Some(DigitsValue(classId))
  {
    ListingMembers(departments, types, q, ScopeOf(Some(classId), deptSlug), docs);
  }

  /** A notice type slug narrows the notices further, on top of the class or department scope. */
  lemma NoticeTypeNarrows(departments: seq<DepartmentRec>, types: seq<NoticeTypeRec>, typeSlug: string, scope: Scope, docs: seq<Document>)
    requires typeSlug != ""
    ensures forall d :: d in ListedRows(departments, types, NoticeQuery(Some(typeSlug)), scope, docs) ==>
      d in ListedRows(departments, types, NoticeQuery(None), scope, docs)
      && d.detail.NoticeDetail?
      && FindNoticeType(types, d.detail.noticeTypeId).Some?
      && FindNoticeType(types, d.detail.noticeTypeId).value.slug == typeSlug
  {
    var typed := ListedRows(departments, types, NoticeQuery(Some(typeSlug)), scope, docs);
    var untyped := ListedRows(departments, types, NoticeQuery(None), scope, docs);
    ListingMembers(departments, types, NoticeQuery(Some(typeSlug)), scope, docs);
    ListingMembers(departments, types, NoticeQuery(None), scope, docs);
    forall d | d in typed
      ensures d in untyped && d.detail.NoticeDetail?
      ensures FindNoticeType(types, d.detail.noticeTypeId).Some?
      ensures FindNoticeType(types, d.detail.noticeTypeId).value.slug == typeSlug
    {
      assert d in docs && Keeps(departments, types, NoticeQuery(Some(typeSlug)), scope, d);
      assert Keeps(departments, types, NoticeQuery(None), scope, d);
    }
  }
}

# School website core, modelled in Dafny

This project models the deterministic rules inside a Django school website:
the public JSON endpoints that list routines, books, syllabus, results,
admissions and notices; the student counts and student list of
`filter_students`; the contact form; the download views and how they classify
failures; the gallery-video endpoint that backfills YouTube identifiers; the
YouTube identifier parser and the write-time rules of `Video.save` and
`Department.save`; the uniqueness checks of the import-export resources; and
the admin's class deletion and single-row tables.

Tables are sequences of value records (`Records`). The listing endpoints share
one filter-and-order rule (`Listing`). The endpoints serialise rows with append
loops that are proved against per-row functions (`DocumentViews`, `NoticeViews`).
Objects that the source updates in place are Dafny classes:

- `Models.Video` and `Models.Department` (which holds a `Department` row), with their `save` methods;
- `Store.Database`, whose delete methods reassign its table fields. The admin adds (`Admin.AddSchoolInfo`, `Admin.AddContactInfo`) and the contact-message insert (`Contact.SubmitContactMessage`) are module methods that reassign a field of a `Database` they are given.

`GalleryViews.FilterGalleryVideos` mutates a sequence of `Video` objects.

`re.search` is modelled literally:

- the leftmost start position;
- alternatives tried left to right;
- the greedy `.*` backs off to the last `v=` on the line.

The two examples in the `Video` fields' help text (a watch URL and a bare identifier) are proved as lemmas, together with a watch URL whose `v=` is not the first query parameter, an example of this model's own.

Inputs that the code receives from outside are parameters:

- the request's parameters;
- the request's origin and MEDIA_URL;
- the file store's answer for a file name;
- `slugify`.

Files:

| file | module | models |
|---|---|---|
| Common.dfy | Common | Option/Result, order-keeping filter, `str.isdigit`, `int()`, `str(n)`, `str.strip` |
| Records.dfy | Records | the table rows, primary-key lookups, foreign-key validity |
| YouTube.dfy | YouTube | `extract_youtube_id`, the field rule of `Video.save`, embed and thumbnail URLs |
| Models.dfy | Models | classes `Video` and `Department` with `save`; `type_display_bengali` |
| Listing.dfy | Listing | the filter, scope and ordering shared by the six listings |
| DocumentViews.dfy | DocumentViews | the row serialisation of the five `web` listings |
| NoticeViews.dfy | NoticeViews | `filter_notices` |
| StudentViews.dfy | StudentViews | `filter_students` |
| GalleryViews.dfy | GalleryViews | `filter_gallery_videos` |
| Downloads.dfy | Downloads | the outcome of the guarded download views |
| Store.dfy | Store | class `Database`; SET_NULL and CASCADE deletes |
| Admin.dfy | Admin | `ClassAdmin.delete_model`, single-row add permission |
| Contact.dfy | Contact | `submit_contact_message` |
| Resources.dfy | Resources | `before_save_instance` of the Class and Student resources |

## Model

| member | source | states |
|---|---|---|
| YouTube.Extract | web/models.py:425-449 | the result is "" or an 11-character `[A-Za-z0-9_-]` token. It is "" exactly when the url is empty or absent, or no pattern matches and the input is not itself a token. Otherwise it is the first matching pattern's capture, or the bare token |
| YouTube.ExtractYouTubeId | web/models.py:425-449 | the loop over the pattern list with an early return computes exactly `Extract` |
| YouTube.FirstMatch | web/models.py:440-443 | the capture of the first pattern, in order, whose search succeeds. It is None exactly when every pattern's search fails, and any capture is a valid token |
| YouTube.SearchFrom | web/models.py:441 | `re.search` from a position: a capture is a valid 11-character token |
| YouTube.SearchWitness | web/models.py:441 | a successful search comes from the leftmost start position where the pattern matches: no earlier position matches, and the result is that match's capture |
| YouTube.SearchFinds | web/models.py:441 | a position where the pattern matches makes the search succeed |
| YouTube.AltCaptureSome | web/models.py:434 | the alternation `(?:youtube\.com/watch\?v=\|youtu\.be/\|youtube\.com/embed/)` matches at a position exactly when one of its alternatives does, followed by a token |
| YouTube.LastV | web/models.py:435 | greedy `.*v=`: the largest position up to the line end where `v=` and a token follow. There is no later one, and None means there is none at all |
| YouTube.LineEnd | web/models.py:435 | `.` stops at the first newline: every character before the returned end is not a newline |
| YouTube.WatchQueryCapture | web/models.py:435 | a capture of pattern 2 is a valid token |
| YouTube.NoMatchWithoutY | web/models.py:434-437 | a string without the letter 'y' matches none of the four patterns |
| YouTube.LaterPatternsSubsumed | web/models.py:434-437 | whenever pattern 3 or 4 finds a token, pattern 1 finds one as well |
| YouTube.FirstTwoPatternsDecide | web/models.py:440-443 | the first match over all four patterns equals the first match over the first two |
| YouTube.CanonicalUrlRoundTrip | web/models.py:455-457 | extracting from the URL that `save` synthesises gives the identifier back |
| YouTube.HelpTextExample | web/models.py:413 | `https://www.youtube.com/watch?v=dQw4w9WgXcQ` yields `dQw4w9WgXcQ` |
| YouTube.BareIdAndNonUrlExamples | web/models.py:446-449 | a bare token is returned unchanged; a non-URL that is not a token gives "" |
| YouTube.WatchQueryExample | web/models.py:435 | `https://www.youtube.com/watch?feature=share&v=dQw4w9WgXcQ` yields `dQw4w9WgXcQ`: pattern 2 finds a `v=` that is not the first query parameter |
| YouTube.SavedFields | web/models.py:451-457 | a URL and no id: the id becomes the extraction. No URL and an id: the URL becomes the canonical one. A non-empty id is never replaced; otherwise nothing changes |
| YouTube.SaveIdempotent | web/models.py:451-457 | saving a second time changes neither field |
| YouTube.SavedFieldsAgree | web/models.py:451-457 | the stored id after a save is the one the stored URL stands for, provided the id before it is empty (with a URL given) or a valid token, and, when both fields are given, they already agreed |
| YouTube.DisagreementSurvivesSave | web/models.py:452-457 | with both a URL and an id given, save changes neither, so a pair that disagrees is kept as it is |
| YouTube.DerivedUrls | web/models.py:459-472 | embed and thumbnail URLs are "" exactly when the id is "", and each is injective in the id |
| YouTube.TrailingNewlineSlipsThrough | web/models.py:446-447 | the fallback as written returns "abcdefghij\n", which is not an identifier; the corrected rule returns "" |
| YouTube.FallbackDiffersOnlyOnNewline | web/models.py:446-447 | the fallback as written and the corrected one agree on every input that does not end in a newline |
| YouTube.SavedFieldsMatchAsWritten | web/models.py:451-454 | for every URL that does not end in a newline, the id `SavedFields` stores is the one the save as written stores |
| Models.Video.Save | web/models.py:451-457 | the two fields after the method are `SavedFields` of the two before it, and a stored id is kept |
| Models.Video.EmbedUrlOf | web/models.py:459-465 | "" exactly when no id is stored, otherwise the embed prefix, the id and the fixed query |
| Models.Video.ThumbnailUrlOf | web/models.py:467-472 | "" exactly when no id is stored, otherwise the thumbnail prefix, the id and `/maxresdefault.jpg` |
| Models.Department.Save | web/models.py:52-55 | a non-empty slug is kept and the row is unchanged; an empty one becomes `slugify(name_en)` and no other field changes |
| Models.TypeDisplayBengali | web/models.py:796-802 | 'EVENT' and 'NEWS' get their Bengali words; any other stored value is shown as it is |
| Common.DigitsRoundTrip | web/views.py:483-484 | `int(str(n)) == n`, so the digit string of an id selects that id |
| Common.Strip | web/views.py:909-912 | `strip()` removes only whitespace, from both ends, and leaves an infix that neither starts nor ends with whitespace. It is "" exactly when the input is all whitespace |
| Common.StripIdempotent | web/views.py:909-912 | stripping twice is stripping once |
| Records.ClassNameOf | web/views.py:496 | "" when the row has no class, otherwise the class's name |
| Records.DepartmentNameOf | web/views.py:497 | "" when the row has no department, otherwise the department's name |
| Listing.RoutineCategory | web/views.py:474 | the `type` parameter, or 'class' when it is absent |
| Listing.ScopeOf | web/views.py:483-486 | class scope exactly when `class_id` is non-empty and all digits. Otherwise department scope exactly when `dept_slug` is non-empty; otherwise none |
| Listing.ClassTakesPrecedence | web/views.py:483-486 | with an all-digit class id, the department slug does not change the scope |
| Listing.NonDigitClassIgnored | web/views.py:483-486 | a non-digit class id behaves as an absent one |
| Listing.InsertByKey | web/views.py:488 | inserting into a newest-first list keeps it newest first and adds exactly that row |
| Listing.SortNewestFirst | web/views.py:488 | `order_by('-key')`: the result is newest first and a permutation of the input |
| Listing.ListedRows | web/views.py:478-488 | the listing is newest first. Each row appears as often as in the table if it is active, accepted by the endpoint and in scope, otherwise not at all |
| Listing.ListingMembers | web/views.py:478-488 | filtering only removes rows: the listing is no longer than the table, and a row is listed exactly when it is in the table and passes the filters |
| Listing.RoutinesOfCategory | web/views.py:474-481 | every listed routine is active and of the requested category, 'class' by default |
| Listing.ClassScopeListsThatClass | web/views.py:483-484 | with an all-digit class id, every listed row belongs to that class |
| Listing.NoticeTypeNarrows | notice/views.py:26-27 | with a type slug, every listed notice is in the untyped listing and has a type of that slug |
| DocumentViews.DownloadPathInjective | web/views.py:500 | two ids never share a `/download-<kind>/<id>/` path |
| DocumentViews.FileUrl | web/views.py:499 | `file.url` fails exactly when there is no file, otherwise it is MEDIA_URL plus the name |
| DocumentViews.SerializeRow | web/views.py:552-561 | the row fails exactly when it has no file (syllabus gives "" instead). It keeps id, title and timestamp and resolves class and department names |
| DocumentViews.RowUrls | web/views.py:552-561 | in a serialised row, the file URL is MEDIA_URL plus the name, made absolute for books and syllabus, and "" for a syllabus without a file. The download URL is `/download-<kind>/<id>/`, made absolute for books and syllabus |
| DocumentViews.SerializeRows | web/views.py:491-501 | the append loop succeeds exactly when every row serialises, and then holds each row's record in order |
| DocumentViews.FilterDocuments | web/views.py:660-685 | the response is the listing serialised row by row in listing order, and fails exactly when a listed row has no file (syllabus never fails) |
| DocumentViews.FilterRoutines | web/views.py:473-503 | every returned routine is active, of the requested category and has `/download-routine/<id>/` |
| DocumentViews.AbsentRelationsReadEmpty | web/views.py:496-497 | an absent class or department serialises as "" |
| DocumentViews.DownloadUrlsDistinct | web/views.py:500 | two serialised rows with the same download URL are the same row |
| NoticeViews.TypeOf | notice/views.py:46 | a notice's type is found exactly when it names an existing type |
| NoticeViews.SerializeNotice | notice/views.py:40-48 | a card fails exactly when the notice has no file or no type. Otherwise it carries the notice's fields, `/download-notice/<id>/`, its type's name and "" for an absent class or department |
| NoticeViews.SerializeNotices | notice/views.py:38-49 | the append loop succeeds exactly when every notice serialises, and then holds each card in order |
| NoticeViews.FilterNotices | notice/views.py:19-51 | the cards are the notice listing, with type, scope and newest-first order, serialised one per notice in the same order |
| NoticeViews.CardsOfRequestedType | notice/views.py:26-27 | with a type slug, every listed notice has a type of that slug and its card shows that type's name |
| NoticeViews.NoticeDownloadUrlsDistinct | notice/views.py:44 | two cards with the same download URL are the same notice |
| StudentViews.StudentImage | web/views.py:237 | the photo's media URL, or stock picture `id % 10 + 1` when there is no photo |
| StudentViews.StudentRowOf | web/views.py:230-241 | a row carries the student's id, name, roll, registration, guardian name and phone and address, its class name, its department name ("" when absent), and `StudentImage` |
| StudentViews.StudentRows | web/views.py:230-241 | one row per displayed student, in the same order, each the `StudentRowOf` of that student |
| StudentViews.FilterStudents | web/views.py:192-257 | fails exactly when a non-empty class id is not a number. The total is male plus female; with neither parameter the counts are 0 and no row is shown |
| StudentViews.ClassShown | web/views.py:203-206 | every student shown for a class belongs to it |
| StudentViews.ClassCountsAndRows | web/views.py:200-206 | by class, the counts are the class's manual fields whatever its visibility. The rows are none when it is hidden, else one per student of the class, each named for it |
| StudentViews.UnknownClassIsEmpty | web/views.py:207-208 | a class id that names no class gives counts 0, 0 and no rows |
| StudentViews.DepartmentCounts | web/views.py:210-220 | by department, the counts are the sums over the distinct classes that have a student there, and 0 when there is none |
| StudentViews.ClassTotalIsAdminTotal | web/models.py:88-90 | by class, the total the view shows is the class's `total_students`, the admin's "Total Students (Manual)" column |
| StudentViews.DepartmentTotalIsClassTotals | web/views.py:214-220 | by department, the total is the sum of `total_students` over the distinct classes that have a student there |
| StudentViews.DepartmentRowsVisible | web/views.py:222-227 | by department, each shown student is in the department and in a publicly shown class that has a student there |
| StudentViews.VisibilityOnlyGatesRows | web/views.py:203-206 | hiding a class leaves its counts and empties its rows |
| StudentViews.FindAfterReplace | web/views.py:202 | after replacing a class row, the lookup by its id finds the new row |
| GalleryViews.Backfilled | web/views.py:811-812 | a non-empty id is kept; an empty one becomes the extraction from the URL |
| GalleryViews.BackfilledMatchesAsWritten | web/views.py:811-812 | for every URL that does not end in a newline, `Backfilled` is the id the view as written fills in |
| GalleryViews.GalleryRecordsListed | web/views.py:815-823 | a record is listed exactly for each video that has an id. The listing is no longer than the videos, and every listed record has non-empty embed and thumbnail URLs |
| GalleryViews.BackfillId | web/views.py:811-813 | the URL is unchanged and the id becomes `Backfilled` of the old fields |
| GalleryViews.FilterGalleryVideos | web/views.py:805-825 | every video keeps its URL and gets `Backfilled` of its old URL and id. The response is the records of the videos after the loop, in order, for those that have an id |
| GalleryViews.BackfilledIdIsValid | web/views.py:811-821 | a backfilled id is an 11-character token, and the embed URL is built from it |
| Downloads.Basename | web/views.py:755 | `os.path.basename`: a suffix without '/', preceded by '/' when shorter than the path |
| Downloads.DownloadPdf | web/views.py:614-630 | not found exactly when the row is missing or its file is missing. Server error exactly when the file name is empty or the file fails to open. Admission serves the base name |
| Downloads.DownloadNoticeFile | web/views.py:92-106 | `get_object_or_404`, then not found for a missing file and server error for an empty name or any other failure; serves the base name |
| Downloads.ViewAdmissionPdf | web/views.py:763-772 | not found ("Admission not found.") exactly when the row is missing; server error exactly when the file name is empty or the file is missing or fails to open; otherwise the file is served inline under its base name |
| Downloads.ViewAndDownloadAdmission | web/views.py:747-772 | viewing and downloading an admission serve the file in the same cases and agree on a missing row; a missing file, not found for the download, is a server error for the view |
| Downloads.SameClassification | web/views.py:92-106 | both styles of download view classify every situation alike |
| Downloads.BasenameOfPlainName | web/views.py:755 | the base name of a name without '/' is the name itself |
| Store.RemoveClass | web/admin.py:116 | the rows that remain are exactly the classes with another id |
| Store.RemoveDepartment | web/models.py:172-178 | the rows that remain are exactly the departments with another id |
| Store.UnlinkStudentsFromClass | web/models.py:165-171 | SET_NULL: no student keeps the class. Others are unchanged, none is removed, and the class's students differ only in having no class |
| Store.UnlinkStudentsFromDepartment | web/models.py:172-178 | SET_NULL on the department, with the same guarantees |
| Store.UnlinkDocsFromClass | web/models.py:290-296 | SET_NULL on a document table's class, with the same guarantees |
| Store.UnlinkDocsFromDepartment | web/models.py:297-303 | SET_NULL on a document table's department, with the same guarantees |
| Store.RemoveNoticesOfType | notice/models.py:32 | CASCADE: the notices that remain are exactly those of another type |
| Store.RemoveNoticeType | notice/models.py:32 | the types that remain are exactly those with another id |
| Store.ClassDeleteKeepsConsistent | web/models.py:165-171 | deleting a class keeps every foreign key pointing at an existing row, and no student refers to it |
| Store.DepartmentDeleteKeepsConsistent | web/models.py:172-178 | deleting a department keeps every foreign key valid, and no student refers to it |
| Store.NoticeTypeDeleteKeepsConsistent | notice/models.py:32 | deleting a notice type keeps every foreign key valid, and no notice of that type remains |
| Store.StudentRefsAfterClassDelete | web/models.py:165-171 | students' references stay valid after a class delete |
| Store.DocRefsAfterClassDelete | web/models.py:290-296 | documents' references stay valid after a class delete |
| Store.StudentRefsAfterDepartmentDelete | web/models.py:172-178 | students' references stay valid after a department delete |
| Store.DocRefsAfterDepartmentDelete | web/models.py:297-303 | documents' references stay valid after a department delete |
| Store.CascadeKeepsNoticeRefs | notice/models.py:32-34 | after the cascade, each remaining notice has its type, class and department |
| Store.Database.DeleteClass | web/models.py:165-171 | the tables after the method are `ClassDeleted` of the tables before it |
| Store.Database.DeleteDepartment | web/models.py:172-178 | the tables after the method are `DepartmentDeleted` of the tables before it |
| Store.Database.DeleteNoticeType | notice/models.py:32 | the tables after the method are `NoticeTypeDeleted` of the tables before it |
| Admin.UnlinkStudentsIdempotent | web/admin.py:115 | detaching a class's students twice is detaching them once |
| Admin.ClassAdminDeleteModel | web/admin.py:114-116 | nullify-then-delete leaves exactly the tables of a plain class delete |
| Admin.DeleteModelOutcome | web/admin.py:114-116 | afterwards no student refers to the class, none is removed, and students of other classes are unchanged. The class is gone, every other class remains, and departments are untouched |
| Admin.AddIfEmpty | web/admin.py:94-95 | an add is performed exactly when the table is empty |
| Admin.AdminAddsKeepSingleRow | web/admin.py:94-95 | after any series of admin adds, a table with at most one row still has at most one. An empty one holds the first requested row |
| Admin.AddSchoolInfo | web/admin.py:94-95 | added exactly when no SchoolInfo exists; the table becomes `AddIfEmpty` of the old one |
| Admin.AddContactInfo | web/admin.py:298-299 | added exactly when no ContactInfo exists; the table becomes `AddIfEmpty` of the old one |
| Contact.Field | web/views.py:909-912 | a field is blank after stripping exactly when it is missing or all whitespace |
| Contact.ContactErrors | web/views.py:909-922 | the error map of the posted data names exactly the fields that are blank once stripped, each with its message. It is empty exactly when none is blank |
| Contact.ValidateContact | web/views.py:914-922 | the error map has a key exactly for each blank field, each with its Bengali message, and no other key; it is empty exactly when no field is blank |
| Contact.SubmitContactMessage | web/views.py:906-933 | 400 exactly when some field is blank, with an error per blank field carrying its Bengali message and nothing stored. Otherwise 201 and exactly one unread message with the stripped values appended |
| Contact.WhitespaceIsBlank | web/views.py:909-916 | a field of only whitespace is rejected like a missing one |
| Contact.StoredMessageIsTrimmed | web/views.py:927-932 | a stored message has four non-empty fields without surrounding whitespace and is unread |
| Resources.ClassClashes | web/resources.py:13 | exactly the classes with that numeric value other than the instance; `exclude(pk=None)` excludes nothing |
| Resources.ClassSaveCheck | web/resources.py:11-14 | accepted exactly when every class with that numeric value is the instance itself; otherwise the ValueError message |
| Resources.ReimportAccepted | web/resources.py:13 | a class imported again with its own key and value is accepted |
| Resources.TakenValueRefused | web/resources.py:13-14 | a value held by a class with another key, or by any class when there is no key, is refused |
| Resources.AcceptedInsertKeepsUnique | web/resources.py:11-14 | inserting an accepted new class keeps numeric values unique |
| Resources.AcceptedUpdateKeepsUnique | web/resources.py:11-14 | updating a class with an accepted value keeps numeric values unique |
| Resources.StudentClashes | web/resources.py:51-54 | exactly the other students of that class with that roll number |
| Resources.StudentSaveCheck | web/resources.py:49-55 | a student without a class is always accepted. One with a class is accepted exactly when no other student of that class has its roll; otherwise the ValueError message |
| Resources.UniquenessIsPerClass | web/resources.py:51-54 | students of other classes or of none never affect the check |
| Resources.SameRollOtherClassAccepted | web/resources.py:52-53 | the same roll number in a different class is accepted |
| Resources.AcceptedStudentKeepsUnique | web/resources.py:49-55 | inserting an accepted new student keeps roll numbers unique within each class |

## Left out

- Template rendering, page views that only assemble context, admin display options, URL routing and context processors. They contain no rule beyond what is modelled.
- `strftime` formatting of timestamps: records keep the raw timestamp.
- `quote` percent-encoding of file names, the `Content-Disposition` header, and the media storage's URL encoding.
- `request.build_absolute_uri` is modelled as the request origin followed by the path.
- The random background colour of notice cards, because it is nondeterministic.
- Opening and streaming files. The file store is a parameter that answers readable, missing or unreadable for each name.
- `download_routine`, `download_notice` and `view_result_pdf`. They have no branch of their own: a missing row or file is an unhandled exception.
- `NoticeType.save`, which is the same slug rule as `Department.save`.
- `Department.total_students`, which no view or admin column reads.
- `slugify` is a parameter left uninterpreted.
- `Routine.routine_type`, a foreign key that no endpoint reads. Routines are filtered by their `category`.
- Persistence by `super().save()`, transactions, and the atomicity of delete-with-nullify.
- The print-only `after_delete_instance` hooks and the rest of the import-export machinery around `before_save_instance`.
- Listing.SortNewestFirst: when rows have equal timestamps the database's order is unspecified; the model keeps the table order among them.
- The `select_related` joins, which do not change results.
- StudentViews.FilterStudents: the student query has no `order_by`, so the database's row order is unspecified; the model lists students in table order.
- StudentViews.FilterStudents: a class id such as " 7" or "+7", which Django's integer conversion accepts, is modelled as the not-a-number failure; only ASCII digit strings select a class.
- The ORM's ValueError message for a non-numeric class id is modelled by its fixed prefix.
- Common.IsDigits: `str.isdigit` is modelled on ASCII digits only; Unicode digits are not.
- Contact.SubmitContactMessage: JSON values that are not strings, and a body that is not JSON, raise in the source and are not modelled. The data is a map from strings to strings.
- GalleryViews.FilterGalleryVideos: the query is a parameter. The caller passes the active videos, newest first.
- Models.Video: the primary key, title and description are constant fields, because neither `save` nor the gallery view writes them.
- The `created_at` stamp of a contact message is not modelled.
- YouTube.SavedFields: fills the id with the corrected extraction `Extract`, not the one as written. For a URL of ten identifier characters and a final newline it stores "" where the source stores the URL itself (see Findings). YouTube.SavedFieldsMatchAsWritten proves the two agree on every other URL.
- Models.Video.Save: follows `SavedFields`, so it has the same corrected-extraction gap on a URL that ends in a newline.
- GalleryViews.Backfilled: fills an empty id with the corrected extraction. It differs from the view as written only on a URL that ends in a newline, and GalleryViews.BackfilledMatchesAsWritten proves the two agree elsewhere.
- GalleryViews.BackfillId: writes `Backfilled`, so it has the same corrected-extraction gap.
- GalleryViews.FilterGalleryVideos: backfills each video with `Backfilled`, so it has the same corrected-extraction gap.
- GalleryViews.BackfilledIdIsValid: holds for the corrected extraction only. The view as written can store "abcdefghij\n", which is not an 11-character token.

## Findings

| source | as written | input that shows it | evidently intended | confidence | as-written member | corrected member |
|---|---|---|---|---|---|---|
| web/models.py:446-447 | the bare-id fallback checks `len(url) == 11` and `re.match(r'^[a-zA-Z0-9_-]+$', url)`. Python's `$` also matches just before a final newline | "abcdefghij\n" (ten identifier characters and a newline) is returned as the video id | accept only strings of exactly eleven identifier characters (`\Z`, or `re.fullmatch`) | not executed | YouTube.ExtractAsWritten, YouTube.TrailingNewlineSlipsThrough | YouTube.Extract |

// The outcome of the guarded download views of web/views.py:
// download_book, download_syllabus, download_result, download_admission,
// download_notice_file and view_admission_pdf. The file store is abstract:
// each stored name is either readable, missing, or present but failing to
// open.

module Downloads {
  import opened Common
  import opened Records

  /** What opening the file behind a stored name does. */
  datatype FileState = Readable | Missing | Unreadable

  /** The response: the file as an attachment, a 404, or a 500. */
  datatype Download = Served(filename: string) | NotFound(message: string) | ServerError(message: string)

  /** The four views that check `os.path.exists` themselves. */
  datatype PdfKind = BookPdf | SyllabusPdf | ResultPdf | AdmissionPdf

  function RecordMissingMessage(kind: PdfKind): string {
    match kind
    case BookPdf => "Book not found."
    case SyllabusPdf => "Syllabus not found."
    case ResultPdf => "Result not found."
    case AdmissionPdf => "Admission not found."
  }

  const FileMissingMessage: string := "The requested file was not found."
  const DownloadFailedMessage: string := "An error occurred during download."

  /** `os.path.basename`: the part after the last '/'. */
  function Basename(path: string): (b: string)
    ensures |b| <= |path| && b == path[|path| - |b|..]
    ensures forall i :: 0 <= i < |b| ==> b[i] != '/'
    ensures |b| < |path| ==> path[|path| - |b| - 1] == '/'
  {
    if path == [] || path[|path| - 1] == '/' then []
    else Basename(path[..|path| - 1]) + [path[|path| - 1]]
  }

  /** download_book and its three siblings: a missing row or a missing file
      is a 404, an empty file name (on which `file.path` raises) or a file
      that fails to open is a 500. Admission sends only the base name. */
  function DownloadPdf(kind: PdfKind, record: Option<Document>, files: string -> FileState): (r: Download)
    ensures r.NotFound? <==> record.None? || (record.value.file != "" && files(record.value.file) == Missing)
    ensures r.ServerError? <==> record.Some? && (record.value.file == "" || files(record.value.file) == Unreadable)
    ensures record.None? ==> r == NotFound(RecordMissingMessage(kind))
    ensures r.Served? ==> r.filename == (if kind == AdmissionPdf then Basename(record.value.file) else record.value.file)
  {
    match record
    case None => NotFound(RecordMissingMessage(kind))
    case Some(d) =>
      if d.file == "" then ServerError(DownloadFailedMessage)
      else if files(d.file) == Missing then NotFound(FileMissingMessage)
      else if files(d.file) == Unreadable then ServerError(DownloadFailedMessage)
      else Served(if kind == AdmissionPdf then Basename(d.file) else d.file)
  }

  const NoticeMissingMessage: string := "No Notice matches the given query."
  const NoticeFileMissingMessage: string := "The requested file was not found on the server."
  const NoticeDownloadFailedMessage: string := "An error occurred while trying to download the file."

  /** download_notice_file: `get_object_or_404`, then opening the file, where
      FileNotFoundError is a 404 and any other exception a 500. */
  function DownloadNoticeFile(record: Option<Document>, files: string -> FileState): (r: Download)
    ensures r.NotFound? <==> record.None? || (record.value.file != "" && files(record.value.file) == Missing)
    ensures r.ServerError? <==> record.Some? && (record.value.file == "" || files(record.value.file) == Unreadable)
    ensures r.Served? ==> r.filename == Basename(record.value.file)
  {
    match record
    case None => NotFound(NoticeMissingMessage)
    case Some(d) =>
      if d.file == "" then ServerError(NoticeDownloadFailedMessage)
      else match files(d.file)
        case Missing => NotFound(NoticeFileMissingMessage)
        case Unreadable => ServerError(NoticeDownloadFailedMessage)
        case Readable => Served(Basename(d.file))
  }

  /** The two styles of handler classify every situation alike; they differ
      only in their messages. */
  lemma SameClassification(kind: PdfKind, record: Option<Document>, files: string -> FileState)
    ensures DownloadPdf(kind, record, files).NotFound? == DownloadNoticeFile(record, files).NotFound?
    ensures DownloadPdf(kind, record, files).ServerError? == DownloadNoticeFile(record, files).ServerError?
    ensures DownloadPdf(kind, record, files).Served? == DownloadNoticeFile(record, files).Served?
  {
  }

  const ViewFailedMessage: string := "An error occurred while viewing the PDF."

  /** view_admission_pdf: a missing row is a 404; every failure to open the
      file, a missing file included, is a 500. The file is served inline;
      `FileResponse` names it by the base name of the stored name. */
  function ViewAdmissionPdf(record: Option<Document>, files: string -> FileState): (r: Download)
    ensures r.NotFound? <==> record.None?
    ensures r.NotFound? ==> r.message == RecordMissingMessage(AdmissionPdf)
    ensures r.ServerError? <==> record.Some? && (record.value.file == "" || files(record.value.file) != Readable)
    ensures r.ServerError? ==> r.message == ViewFailedMessage
    ensures r.Served? ==> r.filename == Basename(record.value.file)
  {
    match record
    case None => NotFound(RecordMissingMessage(AdmissionPdf))
    case Some(d) =>
      if d.file == "" || files(d.file) != Readable then ServerError(ViewFailedMessage)
      else Served(Basename(d.file))
  }

  /** Viewing and downloading an admission agree except on a missing file,
      which the download reports as not found and the view as a server error. */
  lemma ViewAndDownloadAdmission(record: Option<Document>, files: string -> FileState)
    ensures ViewAdmissionPdf(record, files).Served? == DownloadPdf(AdmissionPdf, record, files).Served?
    ensures record.None? ==> ViewAdmissionPdf(record, files) == DownloadPdf(AdmissionPdf, record, files)
    ensures record.Some? && DownloadPdf(AdmissionPdf, record, files).NotFound? ==> ViewAdmissionPdf(record, files).ServerError?
  {
  }

  /** A served file name never contains a directory part when it is a base name,
      and the base name of a name without '/' is the name itself. */
  lemma {:induction false} BasenameOfPlainName(name: string)
    requires forall i :: 0 <= i < |name| ==> name[i] != '/'
    ensures Basename(name) == name
  {
    if name != [] {
      BasenameOfPlainName(name[..|name| - 1]);
      assert name[..|name| - 1] + [name[|name| - 1]] == name;
    }
  }
}

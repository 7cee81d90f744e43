/** The workspace controller's handlers as pure transitions: each takes the
    current state and returns the new state together with the effects it
    requests (backend calls, notifications, log lines). A backend call's
    response or error is a separate transition, applied when it arrives. */
module Workspace {
  import opened Types
  import opened Text
  import opened UploadPolicy

  /** Documents per page; the controller never changes it. */
  const PageLimit: int := 5

  /** How long success and request-failure notifications stay on screen. */
  const NoticeMs: nat := 5000

  /** The state the controller starts in, before its first list request. */
  function Initial(): (r: State)
    ensures r.documents == [] && r.selectedDoc == None && r.selectedFile == None
    ensures r.currentPage == 1 && r.pageLimit == PageLimit
    ensures !r.loading && !r.uploading && r.errorMessage == ""
    ensures r.resultCount == 0 && r.searchTime == 0
  {
    State(
      documents := [],
      selectedDoc := None,
      selectedFile := None,
      currentPage := 1,
      pageLimit := PageLimit,
      loading := false,
      uploading := false,
      errorMessage := "",
      resultCount := 0,
      searchTime := 0)
  }

  /* ---------------- Helpers shared by the handlers ---------------- */

  function SetLoading(s: State): State
  {
    s.(loading := true, errorMessage := "")
  }

  /** Marks the workspace busy and asks for the current page. */
  function LoadDocuments(s: State): (r: Step)
    ensures r.state.loading && r.state.errorMessage == ""
    ensures r.state.(loading := s.loading, errorMessage := s.errorMessage) == s
    ensures r.effects == [Request(List(s.currentPage, s.pageLimit))]
  {
    Step(SetLoading(s), [Request(List(s.currentPage, s.pageLimit))])
  }

  /** Refreshes the list and forgets the last search's metrics and selection. */
  function ClearSearch(s: State): (r: Step)
    ensures r.state.resultCount == 0 && r.state.searchTime == 0 && r.state.selectedDoc == None
    ensures r.state.loading && r.state.errorMessage == ""
    ensures r.state.(resultCount := s.resultCount, searchTime := s.searchTime,
                     selectedDoc := s.selectedDoc, loading := s.loading,
                     errorMessage := s.errorMessage) == s
    ensures r.effects == [Request(List(s.currentPage, s.pageLimit))]
  {
    var t := LoadDocuments(s);
    Step(t.state.(resultCount := 0, searchTime := 0, selectedDoc := None), t.effects)
  }

  /** The common end of a successful upload or delete: both busy flags are
      dropped, the current page is fetched again (which raises `loading`
      anew), and a success notification follows. */
  function HandleSuccess(s: State, message: string): (r: Step)
    ensures !r.state.uploading && r.state.loading && r.state.errorMessage == ""
    ensures r.state.(uploading := s.uploading, loading := s.loading,
                     errorMessage := s.errorMessage) == s
    ensures Requests(r.effects) == [List(s.currentPage, s.pageLimit)]
    ensures r.effects[|r.effects| - 1] == Notify(Positive, message, NoticeMs)
  {
    var t := LoadDocuments(s.(uploading := false, loading := false));
    Step(t.state, t.effects + [Notify(Positive, message, NoticeMs)])
  }

  /** The common end of every failed backend call: the message is shown and
      kept in `errorMessage`, `loading` is dropped, and `uploading` is dropped
      only for an upload or delete failure. The cause goes to the log. */
  function HandleError(s: State, userMessage: string, cause: string, isUploadOrDelete: bool): (r: Step)
    ensures r.state.errorMessage == userMessage && !r.state.loading
    ensures r.state.uploading <==> s.uploading && !isUploadOrDelete
    ensures r.state.(errorMessage := s.errorMessage, loading := s.loading,
                     uploading := s.uploading) == s
    ensures NoRequest(r.effects)
    ensures r.effects == [LogCause(cause), Notify(Negative, userMessage, NoticeMs)]
  {
    Step(s.(errorMessage := userMessage,
            uploading := if isUploadOrDelete then false else s.uploading,
            loading := false),
         [LogCause(cause), Notify(Negative, userMessage, NoticeMs)])
  }

  /* ---------------- Start-up ---------------- */

  /** The constructor: the initial state, then a list request for page 1. */
  function Start(): (r: Step)
    ensures r.state.currentPage == 1 && r.state.pageLimit == PageLimit
    ensures r.state.loading && !r.state.uploading && r.state.documents == []
    ensures r.effects == [Request(List(1, PageLimit))]
  {
    LoadDocuments(Initial())
  }

  /* ---------------- Pagination ---------------- */

  /** Moves one page forward and asks for it. */
  function NextPage(s: State): (r: Step)
    ensures r.state.currentPage == s.currentPage + 1
    ensures r.state.loading && r.state.errorMessage == ""
    ensures r.state.(currentPage := s.currentPage, loading := s.loading,
                     errorMessage := s.errorMessage) == s
    ensures r.effects == [Request(List(s.currentPage + 1, s.pageLimit))]
  {
    LoadDocuments(s.(currentPage := s.currentPage + 1))
  }

  /** Moves one page back and asks for it; on the first page it does nothing
      at all. */
  function PrevPage(s: State): (r: Step)
    ensures s.currentPage <= 1 ==> r == Step(s, [])
    ensures s.currentPage > 1 ==>
              && r.state.currentPage == s.currentPage - 1
              && r.state.loading && r.state.errorMessage == ""
              && r.state.(currentPage := s.currentPage, loading := s.loading,
                          errorMessage := s.errorMessage) == s
              && r.effects == [Request(List(s.currentPage - 1, s.pageLimit))]
  {
    if s.currentPage > 1 then LoadDocuments(s.(currentPage := s.currentPage - 1))
    else Step(s, [])
  }

  /** A list response replaces the documents and ends the loading. */
  function ListSucceeded(s: State, docs: seq<Document>): (r: State)
    ensures r.documents == docs && !r.loading
    ensures r.(documents := s.documents, loading := s.loading) == s
  {
    s.(documents := docs, loading := false)
  }

  function ListFailed(s: State, cause: string): (r: Step)
    ensures r.state.errorMessage == "Failed to load documents."
    ensures !r.state.loading && r.state.uploading == s.uploading
    ensures NoRequest(r.effects)
  {
    HandleError(s, "Failed to load documents.", cause, false)
  }

  /* ---------------- File selection and upload ---------------- */

  /** Picking a file (from the file input or a drop) replaces the selection;
      an empty pick keeps the previous one. */
  function SelectFile(s: State, picked: Option<File>): (r: State)
    ensures picked.Some? ==> r == s.(selectedFile := picked)
    ensures picked.None? ==> r == s
  {
    match picked
    case None => s
    case Some(f) => s.(selectedFile := Some(f))
  }

  /** Validates the selected file and, if it passes, submits it. A refused
      file leaves the state exactly as it was and only shows a notice. */
  function UploadSelectedFile(s: State): (r: Step)
    ensures ValidateUpload(s.selectedFile).Err? ==>
              && r.state == s && NoRequest(r.effects)
              && r.effects == [Notify(Negative, ValidateUpload(s.selectedFile).error.Message(),
                                      ValidateUpload(s.selectedFile).error.DurationMs())]
    ensures ValidateUpload(s.selectedFile).Ok? ==>
              && r.state.uploading && r.state.errorMessage == ""
              && r.state.(uploading := s.uploading, errorMessage := s.errorMessage) == s
              && r.effects == [Request(Upload(s.selectedFile.value))]
  {
    match ValidateUpload(s.selectedFile)
    case Err(why) => Step(s, [Notify(Negative, why.Message(), why.DurationMs())])
    case Ok(f) => Step(s.(uploading := true, errorMessage := ""), [Request(Upload(f))])
  }

  /** A successful upload ends like every success and then forgets the
      selected file. */
  function UploadSucceeded(s: State): (r: Step)
    ensures !r.state.uploading && r.state.selectedFile == None
    ensures r.state.loading && r.state.errorMessage == ""
    ensures r.state.(uploading := s.uploading, selectedFile := s.selectedFile,
                     loading := s.loading, errorMessage := s.errorMessage) == s
    ensures Requests(r.effects) == [List(s.currentPage, s.pageLimit)]
  {
    var t := HandleSuccess(s, "Document uploaded successfully!");
    Step(t.state.(selectedFile := None), t.effects)
  }

  function UploadFailed(s: State, cause: string): (r: Step)
    ensures !r.state.uploading && !r.state.loading
    ensures r.state.errorMessage == "Upload failed. Invalid Document"
    ensures r.state.selectedFile == s.selectedFile
    ensures NoRequest(r.effects)
  {
    HandleError(s, "Upload failed. Invalid Document", cause, true)
  }

  /* ---------------- Delete and view ---------------- */

  /** Deletes document `id` if the user confirmed. Unlike an upload, a delete
      raises no busy flag and keeps the error message. */
  function DeleteDoc(s: State, id: int, confirmed: bool): (r: Step)
    ensures r.state == s
    ensures !confirmed ==> r.effects == []
    ensures confirmed ==> r.effects == [Request(Delete(id))]
  {
    if confirmed then Step(s, [Request(Delete(id))]) else Step(s, [])
  }

  function DeleteSucceeded(s: State): (r: Step)
    ensures !r.state.uploading && r.state.loading && r.state.errorMessage == ""
    ensures Requests(r.effects) == [List(s.currentPage, s.pageLimit)]
  {
    HandleSuccess(s, "Document deleted successfully!")
  }

  function DeleteFailed(s: State, cause: string): (r: Step)
    ensures !r.state.uploading && !r.state.loading
    ensures r.state.errorMessage == "Failed to delete document."
    ensures NoRequest(r.effects)
  {
    HandleError(s, "Failed to delete document.", cause, true)
  }

  /** Asks for one document; no flag is raised while it is fetched. */
  function ViewDoc(s: State, id: int): (r: Step)
    ensures r.state == s
    ensures r.effects == [Request(Get(id))]
  {
    Step(s, [Request(Get(id))])
  }

  function ViewSucceeded(s: State, doc: Document): (r: State)
    ensures r.selectedDoc == Some(doc)
    ensures r.(selectedDoc := s.selectedDoc) == s
  {
    s.(selectedDoc := Some(doc))
  }

  function ViewFailed(s: State, cause: string): (r: Step)
    ensures r.state.errorMessage == "Failed to load document details."
    ensures !r.state.loading && r.state.uploading == s.uploading
    ensures NoRequest(r.effects)
  {
    HandleError(s, "Failed to load document details.", cause, false)
  }

  /* ---------------- Search ---------------- */

  /** Handles a dispatched keyword. The workspace is marked busy first; a
      blank keyword then resets the search and refreshes the list, any other
      keyword, untrimmed, is searched for. */
  function PerformSearch(s: State, keyword: string): (r: Step)
    ensures r.state.loading && r.state.errorMessage == ""
    ensures Trim(keyword) == "" ==>
              && r.state.resultCount == 0 && r.state.searchTime == 0
              && r.state.selectedDoc == None
              && r.effects == [Request(List(s.currentPage, s.pageLimit))]
    ensures Trim(keyword) != "" ==>
              && r.state == s.(loading := true, errorMessage := "")
              && r.effects == [Request(Search(keyword))]
    ensures r.state.documents == s.documents && r.state.currentPage == s.currentPage
    ensures r.state.uploading == s.uploading && r.state.selectedFile == s.selectedFile
  {
    var busy := SetLoading(s);
    if Trim(keyword) == "" then ClearSearch(busy)
    else Step(busy, [Request(Search(keyword))])
  }

  /** A search response replaces the documents, records how many there are
      and how long the round trip took, and selects the first hit. */
  function SearchSucceeded(s: State, docs: seq<Document>, elapsedMs: nat): (r: State)
    ensures r.documents == docs && r.resultCount == |docs| && r.searchTime == elapsedMs
    ensures !r.loading
    ensures |docs| > 0 ==> r.selectedDoc == Some(docs[0])
    ensures |docs| == 0 ==> r.selectedDoc == None
    ensures r.(documents := s.documents, resultCount := s.resultCount,
               searchTime := s.searchTime, loading := s.loading,
               selectedDoc := s.selectedDoc) == s
  {
    s.(documents := docs,
       resultCount := |docs|,
       searchTime := elapsedMs,
       loading := false,
       selectedDoc := if |docs| > 0 then Some(docs[0]) else None)
  }

  function SearchFailed(s: State, cause: string): (r: Step)
    ensures r.state.errorMessage == "Search failed."
    ensures !r.state.loading && r.state.uploading == s.uploading
    ensures NoRequest(r.effects)
  {
    HandleError(s, "Search failed.", cause, false)
  }

  /* ---------------- Properties relating several handlers ---------------- */

  /** Going one page forward and one back returns to the same page, having
      asked for the next page and then for this one again. */
  lemma NextThenPrev(s: State)
    requires s.currentPage >= 1
    ensures PrevPage(NextPage(s).state).state == s.(loading := true, errorMessage := "")
    ensures NextPage(s).effects + PrevPage(NextPage(s).state).effects
         == [Request(List(s.currentPage + 1, s.pageLimit)), Request(List(s.currentPage, s.pageLimit))]
  {
  }

  /** A keyword that trims to nothing is handled exactly like clearing the
      search; any keyword with a non-blank character is searched for. */
  lemma BlankKeywordResets(s: State, keyword: string)
    ensures AllWhitespace(keyword) ==> PerformSearch(s, keyword) == ClearSearch(SetLoading(s))
    ensures !AllWhitespace(keyword) ==> Requests(PerformSearch(s, keyword).effects) == [Search(keyword)]
  {
    BlankIffAllWhitespace(keyword);
  }

  /** Searching a non-blank keyword and getting results back: exactly one
      search call goes out, and afterwards the workspace is idle, shows the
      results with their count and time, has the first hit selected, and is
      still on the same page with the same upload state. */
  lemma SearchRoundTrip(s: State, keyword: string, docs: seq<Document>, elapsedMs: nat)
    requires !AllWhitespace(keyword)
    ensures var sent := PerformSearch(s, keyword);
            var done := SearchSucceeded(sent.state, docs, elapsedMs);
            && Requests(sent.effects) == [Search(keyword)]
            && !done.loading && done.errorMessage == ""
            && done.documents == docs && done.resultCount == |docs| && done.searchTime == elapsedMs
            && (|docs| > 0 ==> done.selectedDoc == Some(docs[0]))
            && done.currentPage == s.currentPage && done.uploading == s.uploading
  {
    BlankIffAllWhitespace(keyword);
  }

  /** Uploading a valid file and getting a success back leaves no upload in
      progress, no file selected and a list request for the current page. */
  lemma UploadRoundTrip(s: State)
    requires ValidateUpload(s.selectedFile).Ok?
    ensures var sent := UploadSelectedFile(s);
            var done := UploadSucceeded(sent.state);
            && Requests(sent.effects) == [Upload(s.selectedFile.value)]
            && !done.state.uploading && done.state.selectedFile == None
            && Requests(done.effects) == [List(s.currentPage, s.pageLimit)]
  {
  }

  /** An upload or delete failure drops `loading` too, even when that flag
      belongs to a search or list request still in flight. */
  lemma UploadFailureClearsLoading(s: State, cause: string)
    requires s.loading && s.uploading
    ensures !UploadFailed(s, cause).state.loading
    ensures !UploadFailed(s, cause).state.uploading
  {
  }

  /** A search, list or view failure never touches an upload in progress. */
  lemma FetchFailureKeepsUpload(s: State, cause: string)
    requires s.uploading
    ensures ListFailed(s, cause).state.uploading
    ensures SearchFailed(s, cause).state.uploading
    ensures ViewFailed(s, cause).state.uploading
  {
  }
}

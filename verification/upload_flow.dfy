/**
 * The upload page's state and its four handlers: choosing a file, running
 * the analysis, downloading under the derived name, and starting over.
 *
 * The React state variables form one `UploadState` record and each handler
 * returns the next record. The object URL of a chosen file, the outcome of
 * the request to the analysis route and the effects on the browser
 * (revoking a URL, saving a file) are explicit inputs and outputs.
 */
module UploadFlow {
  import opened Wrappers
  import opened JsStrings
  import opened FileNames
  import opened AnalyzeRoute

  /** The chosen `File`: its name and MIME type. */
  datatype FileInfo = FileInfo(name: string, mimeType: string)

  datatype UploadState = UploadState(
    selectedFile: Option<FileInfo>,
    previewUrl: string,
    isAnalyzing: bool,
    analysisResult: Option<AnalysisResult>,
    error: string)

  /** The state on the first render. */
  const Initial: UploadState := UploadState(None, "", false, None, "")

  const InvalidFileMessage: string := "Please select a valid image file"
  const AnalyzeFailedMessage: string := "Failed to analyze image. Please try again."

  /** `file.type.startsWith("image/")` */
  predicate IsImage(f: FileInfo) {
    StartsWith(f.mimeType, "image/")
  }

  /**
   * `handleFileSelect`: an image becomes the selected file with a fresh
   * preview and no result or error; anything else, including no file at
   * all, only sets the error message.
   */
  function HandleFileSelect(st: UploadState, file: Option<FileInfo>, objectUrl: string): (st': UploadState)
    ensures st'.isAnalyzing == st.isAnalyzing
    ensures st'.error == "" <==> file.Some? && IsImage(file.value)
    ensures file.Some? && IsImage(file.value) ==>
      st'.selectedFile == file && st'.previewUrl == objectUrl && st'.analysisResult.None?
    ensures !(file.Some? && IsImage(file.value)) ==>
      && st'.selectedFile == st.selectedFile
      && st'.previewUrl == st.previewUrl
      && st'.analysisResult == st.analysisResult
      && st'.error == InvalidFileMessage
  {
    if file.Some? && IsImage(file.value) then
      st.(selectedFile := file, previewUrl := objectUrl, analysisResult := None, error := "")
    else
      st.(error := InvalidFileMessage)
  }

  /**
   * How the request to the analysis route ended: reading the file or the
   * network failed, or the route answered.
   */
  datatype Transport = NetworkFailed | Delivered(response: Response)

  /** `response.ok`: a 2xx status. */
  predicate ResponseOk(r: Response) {
    200 <= r.Status() <= 299
  }

  /**
   * The analysis the page receives: the body of a 2xx answer; a failed
   * transport or a non-2xx status is thrown as an error.
   */
  function Received(t: Transport): (r: Option<AnalysisResult>)
    ensures r.Some? <==> t.Delivered? && t.response.Analysis?
    ensures r.Some? ==> r.value == t.response.result
  {
    match t
    case NetworkFailed => None
    case Delivered(response) =>
      if !ResponseOk(response) then None
      else
        match response
        case Analysis(result) => Some(result)
        case _ => None
  }

  /**
   * The synchronous start of `analyzeImage`: no file means no analysis;
   * otherwise the page shows the loading state and clears the error.
   */
  function BeginAnalysis(st: UploadState): (pending: Option<UploadState>)
    ensures pending.None? <==> st.selectedFile.None?
    ensures pending.Some? ==> pending.value.isAnalyzing && pending.value.error == ""
    ensures pending.Some? ==>
      && pending.value.selectedFile == st.selectedFile
      && pending.value.previewUrl == st.previewUrl
      && pending.value.analysisResult == st.analysisResult
  {
    if st.selectedFile.None? then None else Some(st.(isAnalyzing := true, error := ""))
  }

  /**
   * `analyzeImage` run to completion: a no-op without a file; otherwise
   * the loading state always ends, a received analysis becomes the result,
   * and a failure sets the fixed message and keeps the previous result.
   */
  function AnalyzeImage(st: UploadState, t: Transport): (st': UploadState)
    ensures st.selectedFile.None? ==> st' == st
    ensures st.selectedFile.Some? ==>
      && !st'.isAnalyzing
      && st'.selectedFile == st.selectedFile
      && st'.previewUrl == st.previewUrl
    ensures st.selectedFile.Some? && Received(t).Some? ==>
      st'.analysisResult == Received(t) && st'.error == ""
    ensures st.selectedFile.Some? && Received(t).None? ==>
      st'.analysisResult == st.analysisResult && st'.error == AnalyzeFailedMessage
  {
    match BeginAnalysis(st)
    case None => st
    case Some(pending) =>
      match Received(t)
      case Some(result) => pending.(analysisResult := Some(result), isAnalyzing := false)
      case None => pending.(error := AnalyzeFailedMessage, isAnalyzing := false)
  }

  /** The hidden link `downloadRenamedFile` clicks: its target and the name to save under. */
  datatype DownloadLink = DownloadLink(href: string, fileName: string)

  /**
   * `downloadRenamedFile`: nothing without both a file and a result;
   * otherwise the preview is saved under the derived name, which carries
   * the original file's extension.
   */
  function DownloadRenamedFile(st: UploadState): (link: Option<DownloadLink>)
    ensures link.Some? <==> st.selectedFile.Some? && st.analysisResult.Some?
    ensures link.Some? ==>
      var ext := Extension(st.selectedFile.value.name);
      var suggested := st.analysisResult.value.suggestedName;
      && link.value.href == st.previewUrl
      && EndsWith(link.value.fileName, "." + ext)
      && (EndsWith(suggested, "." + ext) ==> link.value.fileName == suggested)
      && (!EndsWith(suggested, "." + ext) ==>
            link.value.fileName == Stem(suggested) + "." + ext)
  {
    if st.selectedFile.None? || st.analysisResult.None? then None
    else
      var name := DownloadName(st.selectedFile.value.name, st.analysisResult.value.suggestedName);
      DownloadNameShape(st.selectedFile.value.name, st.analysisResult.value.suggestedName);
      Some(DownloadLink(st.previewUrl, name))
  }

  /** The state after `resetApp` and the object URL it revokes, if any. */
  datatype Reset = Reset(state: UploadState, revoked: Option<string>)

  /**
   * `resetApp`: file, preview, result and error are cleared; the loading
   * flag is not touched; a non-empty preview URL is revoked.
   */
  function ResetApp(st: UploadState): (r: Reset)
    ensures r.state.selectedFile.None? && r.state.previewUrl == ""
    ensures r.state.analysisResult.None? && r.state.error == ""
    ensures r.state.isAnalyzing == st.isAnalyzing
    ensures r.revoked.Some? <==> st.previewUrl != ""
    ensures r.revoked.Some? ==> r.revoked.value == st.previewUrl
  {
    var cleared := st.(selectedFile := None, previewUrl := "", analysisResult := None, error := "");
    Reset(cleared, if st.previewUrl != "" then Some(st.previewUrl) else None)
  }

  /**
   * The states the handlers can leave the page in between user actions:
   * a preview exactly when a file is chosen, the file an image, a result
   * only alongside a file, no analysis in flight, and the error one of
   * the page's own messages.
   */
  predicate Coherent(st: UploadState) {
    && (st.selectedFile.Some? <==> st.previewUrl != "")
    && (st.selectedFile.Some? ==> IsImage(st.selectedFile.value))
    && (st.analysisResult.Some? ==> st.selectedFile.Some?)
    && !st.isAnalyzing
    && (st.error == "" || st.error == InvalidFileMessage || st.error == AnalyzeFailedMessage)
  }

  /** The first render is coherent: nothing chosen, nothing shown, nothing in flight. */
  lemma InitialCoherent()
    ensures Coherent(Initial)
    ensures Initial.selectedFile.None? && Initial.analysisResult.None? && !Initial.isAnalyzing
  {
  }

  /**
   * Every handler keeps the page coherent, given that an object URL is
   * never empty (`URL.createObjectURL` returns a `blob:` URL).
   */
  lemma HandlersPreserveCoherent(st: UploadState, file: Option<FileInfo>, objectUrl: string, t: Transport)
    requires Coherent(st)
    requires objectUrl != ""
    ensures Coherent(HandleFileSelect(st, file, objectUrl))
    ensures Coherent(AnalyzeImage(st, t))
    ensures Coherent(ResetApp(st).state)
  {
  }

  /** On a coherent page the download is offered exactly when a result is shown. */
  lemma DownloadIffResult(st: UploadState)
    requires Coherent(st)
    ensures DownloadRenamedFile(st).Some? <==> st.analysisResult.Some?
  {
  }

  /**
   * A failed request never produces a result: starting from no result,
   * the page still has none and shows the failure message.
   */
  lemma FailureShowsNoResult(st: UploadState, t: Transport)
    requires st.selectedFile.Some? && st.analysisResult.None?
    requires t.NetworkFailed? || (t.Delivered? && !t.response.Analysis?)
    ensures AnalyzeImage(st, t).analysisResult.None?
    ensures AnalyzeImage(st, t).error == AnalyzeFailedMessage
  {
  }

  /**
   * A request the route answers: when the image was accepted and the model
   * replied, the page shows an analysis whose name and description are
   * non-empty; otherwise it shows the failure message.
   */
  lemma AnalyzeThroughRoute(st: UploadState, body: RequestBody, reply: ModelReply, parse: string -> ParseOutcome)
    requires st.selectedFile.Some?
    ensures var st' := AnalyzeImage(st, Delivered(Post(body, reply, parse).response));
      && (body.Body? && Truthy(body.base64Image) && reply.Reply? ==>
            st'.analysisResult.Some? && st'.analysisResult.value.suggestedName != ""
            && st'.analysisResult.value.description != "" && st'.error == "")
      && (!(body.Body? && Truthy(body.base64Image) && reply.Reply?) ==>
            st'.error == AnalyzeFailedMessage)
  {
    var h := Post(body, reply, parse);
    var t := Delivered(h.response);
    if body.Body? && Truthy(body.base64Image) && reply.Reply? {
      var result := Normalize(reply.content, parse);
      assert h.response == Analysis(result);
      assert Received(t) == Some(result);
    } else {
      assert !h.response.Analysis?;
      assert Received(t).None?;
    }
  }
}

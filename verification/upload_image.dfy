/**
 * The `UploadImage` component: the same state and handlers as the upload
 * page, wired to what the component renders. The file input shows while
 * no file is chosen; "Analyze with AI" and "Cancel" while a file waits for
 * analysis; "Download Renamed" and "New Image" once a result is shown. A
 * user event is a file choice or a press of a rendered button.
 */
module UploadImage {
  import opened Wrappers
  import opened UploadFlow

  datatype Button = AnalyzeButton | CancelButton | DownloadButton | NewImageButton

  /** The buttons rendered for a state. */
  function Buttons(st: UploadState): (shown: set<Button>)
    ensures CancelButton in shown <==> AnalyzeButton in shown
    ensures DownloadButton in shown <==> NewImageButton in shown
    ensures DownloadButton in shown <==> st.selectedFile.Some? && st.analysisResult.Some?
    ensures AnalyzeButton in shown <==> st.selectedFile.Some? && st.analysisResult.None? && !st.isAnalyzing
    ensures !(AnalyzeButton in shown && DownloadButton in shown)
  {
    if st.selectedFile.None? then {}
    else
      (if st.analysisResult.None? && !st.isAnalyzing then {AnalyzeButton, CancelButton} else {})
      + (if st.analysisResult.Some? then {DownloadButton, NewImageButton} else {})
  }

  /** Whether the file input is rendered. */
  predicate FileInputShown(st: UploadState) {
    st.selectedFile.None?
  }

  /**
   * A user event: choosing a file in the input (with the object URL the
   * browser makes for it), or pressing a button (with how the analysis
   * request would end, used only by the analyze button).
   */
  datatype Event = ChooseFile(file: Option<FileInfo>, objectUrl: string) | Press(button: Button, transport: Transport)

  /** What an event does outside the state. */
  datatype Effect = NoEffect | Revoke(url: string) | SaveAs(link: DownloadLink)

  datatype Stepped = Stepped(state: UploadState, effect: Effect)

  /**
   * The component's response to an event: events on elements that are
   * not rendered do nothing; Cancel and New Image both run `resetApp`.
   */
  function Step(st: UploadState, ev: Event): (r: Stepped)
    ensures ev.ChooseFile? && !FileInputShown(st) ==> r == Stepped(st, NoEffect)
    ensures ev.ChooseFile? && FileInputShown(st) ==>
      r == Stepped(HandleFileSelect(st, ev.file, ev.objectUrl), NoEffect)
    ensures ev.Press? && ev.button !in Buttons(st) ==> r == Stepped(st, NoEffect)
    ensures ev.Press? && ev.button in Buttons(st) && (ev.button == CancelButton || ev.button == NewImageButton) ==>
      && r.state == ResetApp(st).state
      && r.effect == (if st.previewUrl != "" then Revoke(st.previewUrl) else NoEffect)
    ensures ev.Press? && ev.button in Buttons(st) && ev.button == DownloadButton ==>
      && r.state == st
      && r.effect.SaveAs?
      && r.effect.link == DownloadRenamedFile(st).value
    ensures ev.Press? && ev.button in Buttons(st) && ev.button == AnalyzeButton ==>
      r.state == AnalyzeImage(st, ev.transport) && !r.state.isAnalyzing && r.effect.NoEffect?
  {
    match ev
    case ChooseFile(file, objectUrl) =>
      if !FileInputShown(st) then Stepped(st, NoEffect)
      else Stepped(HandleFileSelect(st, file, objectUrl), NoEffect)
    case Press(button, transport) =>
      if button !in Buttons(st) then Stepped(st, NoEffect)
      else
        match button
        case AnalyzeButton => Stepped(AnalyzeImage(st, transport), NoEffect)
        case DownloadButton =>
          var link := DownloadRenamedFile(st);
          Stepped(st, if link.Some? then SaveAs(link.value) else NoEffect)
        case _ =>
          var reset := ResetApp(st);
          Stepped(reset.state, if reset.revoked.Some? then Revoke(reset.revoked.value) else NoEffect)
  }

  /** Every object URL a sequence of events hands to the component is non-empty. */
  predicate UrlsNonEmpty(events: seq<Event>) {
    forall i :: 0 <= i < |events| ==> (events[i].ChooseFile? ==> events[i].objectUrl != "")
  }

  /** The state after a sequence of events. */
  function Run(st: UploadState, events: seq<Event>): UploadState
    decreases |events|
  {
    if events == [] then st else Run(Step(st, events[0]).state, events[1..])
  }

  /**
   * Whatever the user does, starting from a coherent state (such as the
   * first render) the component stays coherent: a result is only ever
   * shown with its file and preview, and no analysis is left in flight.
   */
  lemma {:induction false} RunCoherent(st: UploadState, events: seq<Event>)
    requires Coherent(st)
    requires UrlsNonEmpty(events)
    ensures Coherent(Run(st, events))
    decreases |events|
  {
    if events != [] {
      var ev := events[0];
      if ev.ChooseFile? {
        assert events[0].objectUrl != "";
        HandlersPreserveCoherent(st, ev.file, ev.objectUrl, NetworkFailed);
      } else {
        HandlersPreserveCoherent(st, None, "blob:", ev.transport);
      }
      assert UrlsNonEmpty(events[1..]) by {
        forall i | 0 <= i < |events[1..]|
          ensures events[1..][i].ChooseFile? ==> events[1..][i].objectUrl != ""
        {
          assert events[1..][i] == events[i + 1];
        }
      }
      RunCoherent(Step(st, ev).state, events[1..]);
    }
  }

  /** Cancel and New Image leave the component as after any `resetApp`: ready for a new file. */
  lemma ResetButtonsClear(st: UploadState, b: Button, t: Transport)
    requires Coherent(st)
    requires b in Buttons(st) && (b == CancelButton || b == NewImageButton)
    ensures var r := Step(st, Press(b, t));
      && Coherent(r.state)
      && FileInputShown(r.state)
      && Buttons(r.state) == {}
      && r.effect == Revoke(st.previewUrl)
  {
  }
}

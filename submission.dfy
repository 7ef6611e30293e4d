/** The URL handling of `main` (app.py:275-306): an empty field is refused,
    then a URL that fails validation, and only then is the transcript
    loaded; the summary download is named after the extracted identifier. */
module Submission {
  import opened Text
  import opened TranscriptText
  import opened Validation
  import opened Extraction
  import RoundTrip
  import opened Acquisition

  /** What `main` does with the URL field when the button is pressed. */
  datatype UrlCheck = MissingUrl | InvalidUrl | AcceptedUrl

  function CheckUrl(url: string): (c: UrlCheck)
    ensures c == AcceptedUrl <==> url != "" && exists shape, id :: Accepts(url, shape, id)
    ensures c == MissingUrl <==> url == ""
  {
    ValidateYoutubeUrlSpec(url);
    if url == "" then MissingUrl
    else if !ValidateYoutubeUrl(url) then InvalidUrl
    else AcceptedUrl
  }

  /** The download file name of app.py:306; Python formats a missing
      identifier as `None`. */
  function SummaryFileName(url: string): (name: string)
    ensures "youtube_summary_" <= name
    ensures |name| == if ExtractVideoId(url).Some? then 31 else 24
  {
    "youtube_summary_" + (match ExtractVideoId(url) case Some(id) => id case None => "None") + ".txt"
  }

  /** The run that a press of "Summarize Video" starts (app.py:275-282). A
      Streamlit button reads true only in the run its own click starts, so
      in this run the manual form's button reads false. */
  function SummarizeRun(url: string, english: CaptionOutcome, retry: CaptionOutcome,
                        loader: LoaderOutcome, manualText: string): (r: Option<LoadResult>)
    ensures r.Some? <==> CheckUrl(url) == AcceptedUrl
  {
    if CheckUrl(url) == AcceptedUrl
    then Some(LoadVideoTranscript(url, english, retry, loader, ManualEntry(manualText, false)))
    else None
  }

  /** As written, the manual fallback never delivers a transcript to the
      summary: in the run that loads the transcript the manual button is not
      pressed, so when the captions and the loader both give nothing, the
      form is shown but the result is `None`, whatever text is pasted, even
      text the form itself would accept once its button is pressed. */
  lemma ManualTranscriptNeverReachesSummary(url: string, english: CaptionOutcome, retry: CaptionOutcome,
                                            loader: LoaderOutcome, manualText: string)
    requires CheckUrl(url) == AcceptedUrl
    requires CaptionTranscript(english, retry).None? && LoaderTranscript(loader).None?
    ensures var a := SummarizeRun(url, english, retry, loader, manualText).value;
            ManualForm in a.requests && a.transcript.None?
    ensures !AllWhitespace(manualText) ==> ManualTranscript(ManualEntry(manualText, true)).Some?
  {
    var a := SummarizeRun(url, english, retry, loader, manualText).value;
    ValidateYoutubeUrlSpec(url);
    RoundTrip.ValidatedUrlHasVideoId(url);
    LaterSourcesOnlyAfterFailure(url, english, retry, loader, ManualEntry(manualText, false));
    TranscriptFromLastSource(url, english, retry, loader, ManualEntry(manualText, false));
  }

  /** The evidently intended run: the press of the manual form's button
      still counts as a submission of the URL (as it would if the submission
      were kept across reruns, for instance in session state), so the
      transcript is loaded with the form's button pressed. */
  function SummarizeWithManualRun(url: string, english: CaptionOutcome, retry: CaptionOutcome,
                                  loader: LoaderOutcome, manualText: string): (r: Option<LoadResult>)
    ensures r.Some? <==> CheckUrl(url) == AcceptedUrl
  {
    if CheckUrl(url) == AcceptedUrl
    then Some(LoadVideoTranscript(url, english, retry, loader, ManualEntry(manualText, true)))
    else None
  }

  /** In the intended run, when the captions and the loader both give
      nothing, the pasted text reaches the summary stripped, and only
      whitespace yields no transcript. */
  lemma ManualTranscriptReachesSummary(url: string, english: CaptionOutcome, retry: CaptionOutcome,
                                       loader: LoaderOutcome, manualText: string)
    requires CheckUrl(url) == AcceptedUrl
    requires CaptionTranscript(english, retry).None? && LoaderTranscript(loader).None?
    ensures var a := SummarizeWithManualRun(url, english, retry, loader, manualText).value;
            ManualForm in a.requests &&
            (a.transcript.Some? <==> !AllWhitespace(manualText)) &&
            (a.transcript.Some? ==> a.transcript.value == Strip(manualText))
  {
    ValidateYoutubeUrlSpec(url);
    RoundTrip.ValidatedUrlHasVideoId(url);
    LaterSourcesOnlyAfterFailure(url, english, retry, loader, ManualEntry(manualText, true));
    TranscriptFromLastSource(url, english, retry, loader, ManualEntry(manualText, true));
  }

  /** For an accepted URL the "could not extract video ID" branch of
      app.py:103-105 is never taken: when the caption library is installed,
      the English captions are requested first, for the identifier the
      validating pattern matched. */
  lemma AcceptedUrlUsesMatchedId(url: string, shape: Shape, english: CaptionOutcome, retry: CaptionOutcome,
                                 loader: LoaderOutcome, manual: ManualEntry)
    requires CheckUrl(url) == AcceptedUrl && MatchShape(url, shape).Some?
    ensures var a := LoadVideoTranscript(url, english, retry, loader, manual);
            a.requests != [] &&
            (!english.NotInstalled? ==> a.requests[0] == EnglishCaptions(MatchShape(url, shape).value))
  {
    RoundTrip.MatchedIdIsExtracted(url, shape);
    EnglishCaptionsFirst(url, MatchShape(url, shape).value, english, retry, loader, manual);
  }

  /** The download of an accepted URL is named after the matched identifier,
      never `youtube_summary_None.txt`. */
  lemma AcceptedUrlNamesDownload(url: string, shape: Shape)
    requires CheckUrl(url) == AcceptedUrl && MatchShape(url, shape).Some?
    ensures SummaryFileName(url) == "youtube_summary_" + MatchShape(url, shape).value + ".txt"
    ensures |SummaryFileName(url)| == 31
  {
    RoundTrip.MatchedIdIsExtracted(url, shape);
  }
}

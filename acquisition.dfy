/** The decision logic of `load_video_transcript` (app.py:100-179): the
    ordered fallback from the caption service to the document loader to a
    manually pasted transcript. The external calls are not modelled; their
    outcomes are parameters, and the result records which requests were made
    in which order. */
module Acquisition {
  import opened Text
  import opened TranscriptText
  import Extraction

  /** One caption entry; only its `text` is read (app.py:127). */
  datatype CaptionEntry = CaptionEntry(text: string)

  /** Outcome of one caption-service call: a list of entries, the
      "no transcript found" signal, the "transcripts disabled" signal, any
      other exception, or the library not being installed. The import at
      app.py:110 runs before the first call, so only the English request can
      find the library missing; as the answer to the retry, `NotInstalled`
      counts as a failure like `Failed`. */
  datatype CaptionOutcome = Found(entries: seq<CaptionEntry>) | NotFound | Disabled | Failed | NotInstalled

  /** Outcome of the document loader: the loaded pages' contents, an
      exception, or the library not being installed (the import at app.py:138
      runs before the loader is created). */
  datatype LoaderOutcome = Loaded(pages: seq<string>) | LoaderFailed | LoaderNotInstalled

  /** The manual text area and whether its button was pressed. */
  datatype ManualEntry = ManualEntry(text: string, submitted: bool)

  /** The requests made, keyed as the source keys them: the caption service
      by video identifier, the loader by the full URL. `DefaultCaptions` is
      the retry without a `languages` argument, whose language the library
      chooses. */
  datatype Request =
    | EnglishCaptions(videoId: string)
    | DefaultCaptions(videoId: string)
    | LoaderRequest(url: string)
    | ManualForm

  /** The transcript `load_video_transcript` returns and the requests it made,
      in order. */
  datatype LoadResult = LoadResult(transcript: Option<string>, requests: seq<Request>)

  /** `transcript_data` after app.py:112-124: English first; only a
      "not found" answer leads to a second request without a language. A
      "disabled" answer, any failure and a missing library leave no data. */
  function CaptionData(english: CaptionOutcome, retry: CaptionOutcome): (r: Option<seq<CaptionEntry>>)
    ensures r.Some? <==> english.Found? || (english.NotFound? && retry.Found?)
    ensures english.Found? ==> r == Some(english.entries)
    ensures !english.Found? && r.Some? ==> r == Some(retry.entries)
  {
    match english
    case Found(entries) => Some(entries)
    case NotFound => if retry.Found? then Some(retry.entries) else None
    case Disabled => None
    case Failed => None
    case NotInstalled => None
  }

  /** The caption requests that app.py:110-124 makes, in order: none when the
      library is missing, otherwise English and, on "not found", the retry. */
  function CaptionRequests(videoId: string, english: CaptionOutcome): (r: seq<Request>)
    ensures english.NotInstalled? <==> r == []
    ensures r != [] ==> r[0] == EnglishCaptions(videoId) && (|r| == 2 <==> english.NotFound?)
    ensures |r| <= 2 && (|r| == 2 ==> r[1] == DefaultCaptions(videoId))
  {
    if english.NotInstalled? then []
    else [EnglishCaptions(videoId)] + (if english.NotFound? then [DefaultCaptions(videoId)] else [])
  }

  /** The loader request of app.py:138-141: none when the library is missing. */
  function LoaderRequests(url: string, loader: LoaderOutcome): (r: seq<Request>)
    ensures r == [] <==> loader.LoaderNotInstalled?
    ensures r != [] ==> r == [LoaderRequest(url)]
  {
    if loader.LoaderNotInstalled? then [] else [LoaderRequest(url)]
  }

  /** The texts of the entries, in order (the list comprehension of app.py:127). */
  function EntryTexts(entries: seq<CaptionEntry>): seq<string> {
    seq(|entries|, k requires 0 <= k < |entries| => entries[k].text)
  }

  /** Method 1: a transcript only for a non-empty entry list, its texts joined
      with single spaces. */
  function CaptionTranscript(english: CaptionOutcome, retry: CaptionOutcome): (r: Option<string>)
    ensures r.Some? <==> CaptionData(english, retry).Some? && |CaptionData(english, retry).value| > 0
  {
    match CaptionData(english, retry)
    case Some(entries) => if |entries| > 0 then Some(JoinWithSpaces(EntryTexts(entries))) else None
    case None => None
  }

  /** The joined transcript keeps every entry: splitting it on spaces gives
      the words of every entry text in order, and when no entry text holds a
      space, the entry texts themselves. */
  lemma CaptionTranscriptKeepsEntries(english: CaptionOutcome, retry: CaptionOutcome)
    requires CaptionTranscript(english, retry).Some?
    ensures var texts := EntryTexts(CaptionData(english, retry).value);
            SplitOnSpaces(CaptionTranscript(english, retry).value) == SplitAll(texts)
    ensures (forall e :: e in CaptionData(english, retry).value ==> ' ' !in e.text) ==>
              SplitOnSpaces(CaptionTranscript(english, retry).value) == EntryTexts(CaptionData(english, retry).value)
  {
    var entries := CaptionData(english, retry).value;
    var texts := EntryTexts(entries);
    SplitJoinIsSplitAll(texts);
    if forall e :: e in entries ==> ' ' !in e.text {
      assert forall k :: 0 <= k < |texts| ==> ' ' !in texts[k] by {
        forall k | 0 <= k < |texts| ensures ' ' !in texts[k] {
          assert entries[k] in entries;
        }
      }
      SplitAllSpaceFree(texts);
    }
  }

  /** Method 2: the first page's content, when there is a page and its
      content is not empty (app.py:143-147). */
  function LoaderTranscript(outcome: LoaderOutcome): (r: Option<string>)
    ensures r.Some? <==> outcome.Loaded? && |outcome.pages| > 0 && outcome.pages[0] != ""
    ensures r.Some? ==> r.value == outcome.pages[0] && r.value != ""
  {
    match outcome
    case Loaded(pages) => if |pages| > 0 && pages[0] != "" then Some(pages[0]) else None
    case LoaderFailed => None
    case LoaderNotInstalled => None
  }

  /** Method 3: the pasted text, stripped, when the button was pressed and the
      stripped text is not empty (app.py:172-179). */
  function ManualTranscript(entry: ManualEntry): (r: Option<string>)
    ensures r.Some? <==> entry.submitted && !AllWhitespace(entry.text)
    ensures r.Some? ==> r.value == Strip(entry.text) && r.value != []
  {
    StripEmptyIff(entry.text);
    var stripped := Strip(entry.text);
    if entry.submitted && stripped != "" then Some(stripped) else None
  }

  /** `load_video_transcript(url)` over the outcomes of its external calls.
      Once an identifier is found the manual form is reached unless a
      transcript came earlier, so some request is always recorded. */
  function LoadVideoTranscript(url: string, english: CaptionOutcome, retry: CaptionOutcome,
                               loader: LoaderOutcome, manual: ManualEntry): (a: LoadResult)
    // no identifier: nothing is requested and there is no transcript
    ensures Extraction.ExtractVideoId(url).None? <==> a.requests == []
    ensures a.requests == [] ==> a.transcript.None?
  {
    match Extraction.ExtractVideoId(url)
    case None => LoadResult(None, [])
    case Some(videoId) =>
      var captionRequests := CaptionRequests(videoId, english);
      match CaptionTranscript(english, retry)
      case Some(t) => LoadResult(Some(t), captionRequests)
      case None =>
        var loaderRequests := LoaderRequests(url, loader);
        match LoaderTranscript(loader)
        case Some(t) => LoadResult(Some(t), captionRequests + loaderRequests)
        case None => LoadResult(ManualTranscript(manual), captionRequests + loaderRequests + [ManualForm])
  }

  /** The requests after the caption requests, when an identifier was found:
      the loader's, then the manual form, as far as the chain got. */
  function LaterRequests(url: string, english: CaptionOutcome, retry: CaptionOutcome,
                         loader: LoaderOutcome): (r: seq<Request>)
    ensures forall k :: 0 <= k < |r| ==> r[k] == LoaderRequest(url) || r[k] == ManualForm
  {
    if CaptionTranscript(english, retry).Some? then []
    else if LoaderTranscript(loader).Some? then LoaderRequests(url, loader)
    else LoaderRequests(url, loader) + [ManualForm]
  }

  /** With an identifier, the requests are the caption requests followed by
      the later ones. */
  lemma RequestsSplit(url: string, id: string, english: CaptionOutcome, retry: CaptionOutcome,
                      loader: LoaderOutcome, manual: ManualEntry)
    requires Extraction.ExtractVideoId(url) == Some(id)
    ensures LoadVideoTranscript(url, english, retry, loader, manual).requests ==
              CaptionRequests(id, english) + LaterRequests(url, english, retry, loader)
  {
    var c := CaptionRequests(id, english);
    var l := LoaderRequests(url, loader);
    if CaptionTranscript(english, retry).None? && LoaderTranscript(loader).None? {
      assert c + l + [ManualForm] == c + (l + [ManualForm]);
    }
  }

  /** With an identifier, the first request is for its English captions,
      unless the caption library is missing; then no caption is requested at
      all. */
  lemma EnglishCaptionsFirst(url: string, id: string, english: CaptionOutcome, retry: CaptionOutcome,
                             loader: LoaderOutcome, manual: ManualEntry)
    requires Extraction.ExtractVideoId(url) == Some(id)
    ensures var a := LoadVideoTranscript(url, english, retry, loader, manual);
            a.requests != [] &&
            (!english.NotInstalled? ==> a.requests[0] == EnglishCaptions(id)) &&
            (english.NotInstalled? ==> forall k :: 0 <= k < |a.requests| ==>
                                          a.requests[k] == LoaderRequest(url) || a.requests[k] == ManualForm)
  {
    RequestsSplit(url, id, english, retry, loader, manual);
    if english.NotInstalled? {
      assert CaptionRequests(id, english) + LaterRequests(url, english, retry, loader) ==
             LaterRequests(url, english, retry, loader);
    }
  }

  /** A retry without a language happens exactly on "not found". */
  lemma RetryOnlyOnNotFound(url: string, english: CaptionOutcome, retry: CaptionOutcome,
                            loader: LoaderOutcome, manual: ManualEntry)
    ensures var a := LoadVideoTranscript(url, english, retry, loader, manual);
            (exists k :: 0 <= k < |a.requests| && a.requests[k].DefaultCaptions?) <==>
              (a.requests != [] && english.NotFound?)
  {
    var a := LoadVideoTranscript(url, english, retry, loader, manual);
    match Extraction.ExtractVideoId(url)
    case None =>
    case Some(id) =>
      var c := CaptionRequests(id, english);
      var later := LaterRequests(url, english, retry, loader);
      RequestsSplit(url, id, english, retry, loader, manual);
      if english.NotFound? {
        assert a.requests[1] == DefaultCaptions(id);
      } else {
        NoDefaultCaptionsIn(c, later);
      }
  }

  /** Two request lists without a retry have none between them. */
  lemma NoDefaultCaptionsIn(c: seq<Request>, later: seq<Request>)
    requires forall k :: 0 <= k < |c| ==> !c[k].DefaultCaptions?
    requires forall k :: 0 <= k < |later| ==> !later[k].DefaultCaptions?
    ensures forall k :: 0 <= k < |c + later| ==> !(c + later)[k].DefaultCaptions?
  {
    forall k | 0 <= k < |c + later|
      ensures !(c + later)[k].DefaultCaptions?
    {
      if k >= |c| {
        assert (c + later)[k] == later[k - |c|];
      }
    }
  }

  /** The loader is asked exactly when the captions gave no transcript and
      its library is installed; the manual form is offered exactly when
      neither the captions nor the loader gave a transcript. */
  lemma LaterSourcesOnlyAfterFailure(url: string, english: CaptionOutcome, retry: CaptionOutcome,
                                     loader: LoaderOutcome, manual: ManualEntry)
    ensures var a := LoadVideoTranscript(url, english, retry, loader, manual);
            (LoaderRequest(url) in a.requests <==>
               a.requests != [] && CaptionTranscript(english, retry).None? && !loader.LoaderNotInstalled?) &&
            (ManualForm in a.requests <==>
               a.requests != [] && CaptionTranscript(english, retry).None? && LoaderTranscript(loader).None?)
  {
    match Extraction.ExtractVideoId(url)
    case None =>
    case Some(id) =>
      CaptionRequestsOnly(url, id, english);
      RequestsSplit(url, id, english, retry, loader, manual);
  }

  /** The caption requests never include the loader or the manual form. */
  lemma CaptionRequestsOnly(url: string, id: string, english: CaptionOutcome)
    ensures LoaderRequest(url) !in CaptionRequests(id, english) && ManualForm !in CaptionRequests(id, english)
  {
  }

  /** The transcript is the answer of the first source that gave one:
      captions, then the loader, then the manual form, which is shown exactly
      when the other two gave none. */
  lemma TranscriptFromLastSource(url: string, english: CaptionOutcome, retry: CaptionOutcome,
                                 loader: LoaderOutcome, manual: ManualEntry)
    ensures var a := LoadVideoTranscript(url, english, retry, loader, manual);
            (a.requests != [] && CaptionTranscript(english, retry).Some? ==>
               a.transcript == CaptionTranscript(english, retry)) &&
            (a.requests != [] && CaptionTranscript(english, retry).None? && LoaderTranscript(loader).Some? ==>
               a.transcript == LoaderTranscript(loader)) &&
            (ManualForm in a.requests ==> a.transcript == ManualTranscript(manual))
  {
    match Extraction.ExtractVideoId(url)
    case None =>
    case Some(id) =>
      CaptionRequestsOnly(url, id, english);
      RequestsSplit(url, id, english, retry, loader, manual);
  }

  /** "Transcripts disabled" is not fatal and is not retried: the next request
      goes to the loader, or to the manual form when the loader is missing. */
  lemma DisabledGoesToLoader(url: string, retry: CaptionOutcome, loader: LoaderOutcome, manual: ManualEntry)
    requires Extraction.ExtractVideoId(url).Some?
    ensures var a := LoadVideoTranscript(url, Disabled, retry, loader, manual);
            |a.requests| >= 2 &&
            a.requests[1] == (if loader.LoaderNotInstalled? then ManualForm else LoaderRequest(url))
  {
  }

  /** The one way to get an empty transcript: a caption list whose texts join
      to nothing (a single entry with empty text). It stops the fallback even
      though the caller treats an empty transcript as none. */
  lemma EmptyTranscriptOnlyFromCaptions(url: string, english: CaptionOutcome, retry: CaptionOutcome,
                                         loader: LoaderOutcome, manual: ManualEntry)
    requires LoadVideoTranscript(url, english, retry, loader, manual).transcript == Some("")
    ensures var entries := CaptionData(english, retry).value;
            LoaderRequest(url) !in LoadVideoTranscript(url, english, retry, loader, manual).requests &&
            |entries| == 1 && entries[0].text == ""
  {
    var entries := CaptionData(english, retry).value;
    JoinEmptyIff(EntryTexts(entries));
  }
}

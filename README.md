# YouTube Video Summarizer: URL handling and transcript acquisition

The app asks for a YouTube URL, loads the video's transcript and has a
language model summarise it. This project models the part of `app.py` that
takes no external call:

- `validate_youtube_url`: three anchored patterns for `youtube.com/watch?v=`,
  `youtu.be/` and `youtube.com/embed/` URLs, each with an optional scheme and
  an optional `www.`.
- `extract_video_id`: three unanchored patterns, searched in order, the first
  group kept when it is 11 characters long.
- `load_video_transcript`: captions in English, then, on "not found", a
  second request without a `languages` argument. Then the LangChain loader. Then a manually pasted transcript.
  Caption entries are joined with single spaces, and the manual text is
  stripped.
- The URL checks of `main` and the name of the downloaded summary file.

Python's `re` engine is not modelled as an engine. Each pattern becomes a
function that states what that pattern matches:

- `re.match` is anchored at index 0.
- `re.search` reports the leftmost start index.
- At one start index, alternatives are tried left to right.
- A greedy `.*` or `.+` backtracks to the rightmost point that lets the rest
  match.
- `.` does not match a newline.

The external services are parameters. The caption service, the document
loader and the manual form each become an outcome datatype. The result of
`load_video_transcript` records the requests that were actually made, in
order. A missing library makes no request: its import fails before the call.

Modules:

- `Text`: identifiers and literal matching.
- `Validation`: `validate_youtube_url`, proved equal to a reference
  definition.
- `Extraction`: `extract_video_id`, plus a proof that only its first pattern
  ever decides the result.
- `RoundTrip`: a validated URL extracts to the identifier that validation
  matched.
- `TranscriptText`: `' '.join` and `str.strip`.
- `Acquisition`: the fallback chain.
- `Submission`: `main`'s URL checks and download name.
- `Examples`: concrete URLs.

## Model

| member | source | states |
|---|---|---|
| Validation.SchemeLength | app.py:23-25 | the text the greedy `(https?://)?` consumes is one of `""`, `http://`, `https://` and is a prefix of the URL |
| Validation.SubdomainLength | app.py:23-25 | the text the greedy `(www\.)?` consumes is `""` or `www.` and lies inside the URL |
| Validation.MatchShape | app.py:23-25 | a match of one pattern yields an 11-character identifier, and the URL starts with an accepted scheme, subdomain, host and that identifier |
| Validation.AnyShapeMatches | app.py:28-31 | the loop over the patterns is true exactly when some pattern of the list matches |
| Validation.GroupsAreDetermined | app.py:23-25 | when any accepted scheme, subdomain and host start the URL, the optional groups consume exactly that scheme and subdomain |
| Validation.ReferenceFormMatches | app.py:23-25 | every URL of the form scheme + `www.`-or-nothing + host + identifier matches its pattern and captures that identifier |
| Validation.MatchShapeIsAccepts | app.py:23-29 | a pattern captures `id` if and only if the URL has the reference form with `id` |
| Validation.ValidateYoutubeUrlSpec | app.py:20-31 | validation succeeds if and only if the URL starts with one of the three accepted forms followed by an identifier |
| Validation.ValidateYoutubeUrl | app.py:20-31 | validation is true exactly when one of the three patterns matches the URL |
| Extraction.DelimitedAt | app.py:36 | the first pattern matches at an index exactly when `v=` or `/` is followed there by eleven identifier characters, and captures an identifier |
| Extraction.LineEnd | app.py:37 | the reach of `.`: no newline before the returned index, and a newline or the end of the text at it |
| Extraction.LastLiteralThenId | app.py:37 | greedy backtracking: the match point found is the rightmost one in range, and none exists when `None` |
| Extraction.PathOrQueryAt | app.py:37 | a match of the second pattern captures an 11-character identifier |
| Extraction.ShortLinkAt | app.py:38 | a match of the third pattern captures an 11-character identifier |
| Extraction.MatchAt | app.py:36-38 | a pattern that matches at an index captures an 11-character identifier |
| Extraction.SearchFrom | app.py:41-42 | `re.search` reports the leftmost start index where the pattern matches, or finds no start index at all |
| Extraction.Search | app.py:41-42 | `re.search` from the start: a result is the match at the leftmost matching index, and there is none exactly when no index matches |
| Extraction.ExtractWith | app.py:41-47 | the result is an 11-character identifier that one of the patterns' searches found |
| Extraction.ExtractVideoId | app.py:33-47 | a result is an 11-character identifier that the search of one of the three patterns returned |
| Extraction.PathOrQueryNeedsDelimited | app.py:36-37 | wherever the second pattern matches, the first pattern matches somewhere too |
| Extraction.ShortLinkNeedsDelimited | app.py:36-38 | wherever the third pattern matches, the first pattern matches somewhere too |
| Extraction.LaterPatternsNeverDecide | app.py:33-47 | `extract_video_id` always returns what the first pattern's search returns; the later patterns and the length check never change it |
| Extraction.ExtractVideoIdNoneIff | app.py:33-47 | extraction returns `None` if and only if no `v=` or `/` is followed by eleven identifier characters |
| Extraction.ExtractVideoIdIsLeftmost | app.py:36-46 | extraction returns the eleven characters after the leftmost `v=` or `/` that is followed by eleven identifier characters, `v=` winning over `/` at the same index |
| RoundTrip.NoDelimiterBeforeHost | app.py:23-36 | no match of the first extraction pattern starts inside an accepted scheme or `www.` |
| RoundTrip.NoDelimiterInWatchHost | app.py:23-36 | none starts inside `youtube.com/watch?` |
| RoundTrip.NoDelimiterInShortHost | app.py:24-36 | none starts inside `youtu.be` |
| RoundTrip.NoDelimiterInEmbedHost | app.py:25-36 | none starts inside `youtube.com/embed` |
| RoundTrip.DelimiterBeforeId | app.py:23-36 | the `v=` or `/` that ends the host matches the first extraction pattern and captures the identifier that validation matched |
| RoundTrip.MatchedIdIsExtracted | app.py:20-47 | for every URL a validation pattern matches, extraction returns exactly the identifier that pattern captured |
| RoundTrip.ValidatedUrlHasVideoId | app.py:278-282 | every URL that passes validation yields an identifier of an accepted form |
| TranscriptText.TrimStart | app.py:173-175 | the leading half of `strip()` removes a whitespace-only prefix and leaves nothing or a non-whitespace first character |
| TranscriptText.TrimEnd | app.py:173-175 | the trailing half of `strip()` removes a whitespace-only suffix and leaves nothing or a non-whitespace last character |
| TranscriptText.Strip | app.py:173-175 | `strip` returns a middle slice of the input with only whitespace around it, and the slice starts and ends with non-whitespace |
| TranscriptText.StripEmptyIff | app.py:173 | the stripped text is empty if and only if the input is all whitespace |
| TranscriptText.StripIdempotent | app.py:175 | stripping twice is the same as stripping once |
| TranscriptText.JoinWithSpaces | app.py:127 | the length of `' '.join` is the texts' total plus one separator between neighbours, and the result starts with the first text; `SplitJoinIsSplitAll` states the contents |
| TranscriptText.SplitAtSpace | app.py:127 | splitting on spaces at a separator splits the two sides independently |
| TranscriptText.SplitJoinIsSplitAll | app.py:127 | for any non-empty list of texts, splitting the join on spaces gives the pieces of every text, in order: the join loses nothing |
| TranscriptText.SplitAllSpaceFree | app.py:127 | texts that hold no space are their own pieces |
| TranscriptText.SplitJoinWithSpaces | app.py:127 | joining space-free texts with single spaces and splitting on spaces returns the texts in order |
| TranscriptText.JoinEmptyIff | app.py:126-127 | the join is empty if and only if there are no texts, or one empty text |
| Acquisition.CaptionData | app.py:112-124 | caption data exists exactly when the English request found some, or answered "not found" and the retry found some; the English data wins |
| Acquisition.CaptionRequests | app.py:110-124 | the English request is made unless the library is missing, and the retry without a language follows it exactly on "not found" |
| Acquisition.LoaderRequests | app.py:138-141 | the loader is requested with the full URL unless its library is missing |
| Acquisition.CaptionTranscript | app.py:112-128 | method 1 yields a transcript if and only if the caption data is a non-empty list |
| Acquisition.CaptionTranscriptKeepsEntries | app.py:126-128 | splitting the caption transcript on spaces gives the pieces of every entry text in order, and the entry texts themselves when none holds a space |
| Acquisition.LoaderTranscript | app.py:140-147 | method 2 yields the first page's content if and only if there is a first page with non-empty content |
| Acquisition.ManualTranscript | app.py:172-177 | method 3 yields a transcript if and only if the button was pressed and the text is not all whitespace; the transcript is the stripped text |
| Acquisition.LoadVideoTranscript | app.py:100-105 | nothing is requested exactly when no identifier can be extracted, and then there is no transcript |
| Acquisition.RequestsSplit | app.py:107-179 | with an identifier, the requests are the caption requests followed by those of the later sources |
| Acquisition.EnglishCaptionsFirst | app.py:102-113 | with an identifier something is requested; the first request is for its English captions unless the caption library is missing, and then only the later sources are asked |
| Acquisition.RetryOnlyOnNotFound | app.py:112-124 | a caption request without a language is made if and only if the English request answered "not found" |
| Acquisition.LaterSourcesOnlyAfterFailure | app.py:126-157 | the loader is asked if and only if the captions gave no transcript and its library is installed, and the manual form is shown if and only if neither the captions nor the loader gave one |
| Acquisition.TranscriptFromLastSource | app.py:126-179 | the transcript is the captions' when they gave one, else the loader's when it gave one, else the manual form's whenever the form is shown |
| Acquisition.DisabledGoesToLoader | app.py:122-140 | "transcripts disabled" is not retried; the next request goes to the loader, or to the manual form when the loader's library is missing |
| Acquisition.EmptyTranscriptOnlyFromCaptions | app.py:126-179 | an empty transcript comes only from a caption list with one empty entry, and then the loader is not asked |
| Submission.CheckUrl | app.py:275-282 | a URL is accepted if and only if it is non-empty and starts with an accepted form |
| Submission.SummaryFileName | app.py:306 | the download name starts with `youtube_summary_` and is 31 characters long with an identifier, 24 (`None`) without |
| Submission.SummarizeRun | app.py:275-282 | the transcript is loaded exactly when the URL is accepted |
| Submission.ManualTranscriptNeverReachesSummary | app.py:172-177 | in the run that loads the transcript, when captions and loader give nothing, the form is shown and the result is no transcript, even for text the form would accept |
| Submission.SummarizeWithManualRun | app.py:275-282 | the intended run also loads exactly when the URL is accepted |
| Submission.ManualTranscriptReachesSummary | app.py:172-177 | in the intended run the stripped pasted text becomes the transcript, and only whitespace gives none |
| Submission.AcceptedUrlUsesMatchedId | app.py:278-282 | for an accepted URL something is requested, and unless the caption library is missing the first request is for the English captions of the identifier validation matched |
| Submission.AcceptedUrlNamesDownload | app.py:306 | for an accepted URL the download is named `youtube_summary_<id>.txt` after that identifier, 31 characters long |
| Examples.WatchUrlExample | app.py:20-47 | `https://www.youtube.com/watch?v=dQw4w9WgXcQ` validates and extracts to `dQw4w9WgXcQ` |
| Examples.ShortUrlExample | app.py:20-47 | `https://youtu.be/dQw4w9WgXcQ` validates and extracts to `dQw4w9WgXcQ` |
| Examples.TrailingTextExample | app.py:20-47 | validation is anchored only at the start: `youtu.be/dQw4w9WgXcQXYZ&t=42` validates and extracts the first eleven identifier characters |
| Examples.OtherSiteRejected | app.py:20-31 | `https://vimeo.com/12345` does not validate |
| Examples.EmptyRejected | app.py:20-47 | the empty string neither validates nor yields an identifier |

## Left out

- The Streamlit page: layout, sidebar, spinners, and the success, warning and error messages. Output only, with no effect on the result.
- `initialize_llm` (app.py:49-74), including the check for a missing or placeholder API key. It reads the environment and calls a foreign library.
- `create_summarizer_template` and `summarize_transcript` (app.py:76-206). The summary comes from a language model and is not a function of its input that can be stated.
- What `main` does after a transcript is loaded: the video preview, the summary call and the tabs. The one exception is the download file name, which is modelled.
- The caption service, the document loader and the manual form are not modelled as calls. Their outcomes are parameters. `NotInstalled` and `LoaderNotInstalled` stand for the failed imports at app.py:110 and app.py:138, which come before any request. `Failed` stands for any other exception at app.py:132-133, including a "disabled" answer to the retry without a language, which escapes the inner handler. `LoaderFailed` stands for the exceptions at app.py:151-152.
- Caption entries keep only their `text` field. The timing fields are never read.
- Streamlit re-runs the whole script on every interaction, and a button reads true only in the run its own click starts. `main` loads the transcript only in the run started by "Summarize Video", so there the manual form's button reads false. Reruns and session state are not modelled; `SummarizeRun` is that one run, and `LoadVideoTranscript` keeps the button as a parameter so that the form's own logic can be stated.
- Acquisition.LoadVideoTranscript: its own contract covers only the no-identifier case. The rest of the fallback order is stated by the lemmas that follow it.
- Acquisition.ManualTranscript: states that its result is `Strip` of the text. What stripping means is stated once, on `TranscriptText.Strip`.

## Findings

| source | as written | input that shows it | evidently intended | confidence | as-written member | corrected member |
|---|---|---|---|---|---|---|
| app.py:172-177 | the manual form's button is read in the run started by "Summarize Video", where it is false; pressing it starts a new run in which `summarize_button` is false, so `load_video_transcript` is not called and the pasted text never reaches the summary | an accepted URL, English captions "not found" and the retry "not found", the loader failing, pasted text `  hello  ` | the stripped text `hello` becomes the transcript that is summarised | not executed; rests on Streamlit's documented `st.button` behaviour | Submission.ManualTranscriptNeverReachesSummary | Submission.ManualTranscriptReachesSummary |

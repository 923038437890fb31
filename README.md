# YouTube summary backend: a verified model of its transcript logic

The backend is a small Flask application (`app.py`). It takes a YouTube URL
and pulls out the 11-character video ID. It then obtains a transcript by
trying five strategies in a fixed order: youtube-dl, the timed-text API,
scraping of the watch page, the `youtube_transcript_api` library and yt-dlp.
Subtitle documents in WebVTT form become plain text through `parse_vtt`. The
transcript is cut down to size and handed to Gemini for a summary. Finally
the handler answers with the video's title, channel, thumbnail and that
summary.

This Dafny project models the decisions the code takes:

- `text.dfy` (module `Text`) models the Python string operations the code
  relies on: `strip`, `startswith`, `in`, `isdigit`, `split('\n')` and `join`.
- `vtt.dfy` (module `Vtt`) models `parse_vtt`. It has the line filter, the
  tag pass `re.sub(r'<[^>]+>', '', line)` and the loop that collects the
  lines.
- `video_id.dfy` (module `VideoId`) models
  `re.search(r'(?:v=|\/)([0-9A-Za-z_-]{11})', url)` as a scan over start
  positions from left to right.
- `strategies.dfy` (module `Strategies`) models the five strategies, the loop
  over four URLs in `try_direct_youtube_api`, and the cascade in
  `get_youtube_transcript`.
- `gemini.dfy` (module `Gemini`) models the API-key check and the
  truncation to 15000 characters in `gemini_ozet_yap`.
- `handler.dfy` (module `Handler`) models `summarize` and `get_video_info`.

The model gets everything outside the process as an input:

- `Strategies.World` holds what the network and the two subtitle
  downloaders answer, as functions keyed by the URL the code requests. It
  also holds what the caption library answers, keyed by the video ID.
- The oEmbed reply is a function from URL to answer.
- The Gemini service is a function from the key and the prepared text to the
  text it returns. That text includes the code's own error texts.

`parse_vtt`, the direct-API loop and the cascade are imperative in the
source, so they are methods here (`ParseVtt`, `TryDirectApi` and
`GetYoutubeTranscript`). Each method is proved equal to a specification
function (`Transcript`, `DirectApiResult` and `CascadeResult`). Lemmas state
what those functions mean. The handler is the method `Summarize`, which is
proved against the function `Answer`. The extra out-parameter `tried` of
these methods lists the URLs or strategies the code requests, in order. The
Python functions do not return it: it makes the control flow visible.

In a few places the code does not do what one might expect of it, and the
model follows the code:

- One might expect `parse_vtt` to be idempotent; it is not. `Vtt.TrailingTagNotIdempotent` and
  `Vtt.HeaderTagNotIdempotent` prove this on `"a <b>"` and
  `"WEB<i>VTT x"`.
- Every line that starts with `<` is dropped, not only the lines that are
  purely a tag.
- The video-description fallback (`get_video_description`) is never called,
  so the cascade has only the five strategies.
- The caption library's default transcript is used as it is. No preference
  for human-made captions is modelled, because the code has none.
- When every strategy fails, the handler does not answer with a dedicated
  message. `len(None)` raises a `TypeError`, and the generic error path
  reports its text.

## Model

| member | source | states |
|---|---|---|
| Text.Strip | app.py:314 | `line.strip()`: cut the leading and the trailing `str.isspace` characters; its meaning is proved in `Text.StripMeaning` |
| Text.StripMeaning | app.py:314 | `line.strip()` is a slice of the line with only whitespace cut off both ends; a non-empty result neither starts nor ends with whitespace |
| Text.StripIdempotent | app.py:314 | stripping a stripped line changes nothing |
| Text.StripAllSpace | app.py:314 | a whitespace-only line strips to `""` |
| Text.SplitLines | app.py:310 | `split('\n')` gives at least one piece, no piece holds a newline, and every character of a piece comes from the input |
| Text.SplitJoinRoundTrip | app.py:310 | joining the pieces of `split('\n')` with `'\n'` gives the input back |
| Text.SplitConcat | app.py:310 | splitting `x + "\n" + y` gives the pieces of `x` followed by those of `y` |
| Text.Join | app.py:326 | `sep.join(parts)`: the parts in order with one separator between neighbours |
| Text.HasInfix | app.py:317 | `sub in s`: `sub` occurs at some position of `s` |
| Text.JoinChars | app.py:326 | every character of a join comes from a part or from the separator |
| Text.JoinConcat | app.py:326 | joining two non-empty lists puts exactly one separator between their joins |
| Text.JoinEmpty | app.py:326 | a join of non-empty parts is `""` exactly when there are no parts |
| Text.InfixNeedsChar | app.py:316 | `sub in s` fails when a character of `sub` is missing from `s` |
| Vtt.StripTags | app.py:322 | the single `re.sub('<[^>]+>', '', line)` pass leaves no `<`, non-`>` characters, `>` span behind, adds no character, and keeps a first character that is not `<` |
| Vtt.StripTagsNoop | app.py:322 | the pass leaves text without tags unchanged |
| Vtt.StripTagsIdempotent | app.py:322 | a second tag pass changes nothing |
| Vtt.StripTagsPlain | app.py:322 | characters before the first `<` pass through the tag pass unchanged |
| Vtt.StripTagsDeletesTag | app.py:322 | a leading `<m>` with `m` non-empty and free of `>` is deleted whole |
| Vtt.TagBetween | app.py:322 | a single tag between two runs of text without `<` is exactly what the pass removes |
| Vtt.Passes | app.py:315-320 | the six tests: non-empty, not starting with `WEBVTT`, no `-->`, not starting with `NOTE`, not all digits, not starting with `<` |
| Vtt.Segment | app.py:314-324 | what one raw line contributes: its stripped form after the tag pass, when the stripped form passes the six tests and the result is non-empty |
| Vtt.ParseVtt | app.py:308-326 | the loop returns `Transcript(content)`: the single-space join, in order, of each stripped line that passes all six tests, after its tag pass, when that is non-empty |
| Vtt.SegmentShape | app.py:314-324 | a line is kept exactly when its stripped form passes the six tests (the `if line:` test never fails); a kept piece is non-empty, starts with neither whitespace nor `<`, has no tag, and uses only the line's characters |
| Vtt.KeptShape | app.py:313-324 | there are no more kept pieces than lines; every kept piece is non-empty, starts with neither whitespace nor `<`, and has no tag; lines without a newline give pieces without one |
| Vtt.KeptConcat | app.py:313-324 | the lines are handled one at a time and in order: the pieces kept from `a + b` are those of `a` followed by those of `b` |
| Vtt.TranscriptEmpty | app.py:326 | the result is `""` exactly when no line is kept |
| Vtt.TranscriptConcat | app.py:310-326 | parsing two documents joined by a newline gives the two parses joined by one space, or either one alone when the other is empty |
| Vtt.TranscriptHasNoNewline | app.py:310-326 | the result never contains `'\n'` |
| Vtt.BlankTranscript | app.py:310-326 | empty or whitespace-only input parses to `""` |
| Vtt.SingleLine | app.py:310-326 | a document of one line parses to that line's kept piece, or to `""` |
| Vtt.PlainLineKept | app.py:313-326 | a cue text line with nothing to strip, filter or untag is returned as it is |
| Vtt.HeaderLineGone | app.py:316 | the `WEBVTT` header line contributes nothing |
| Vtt.TimingLineGone | app.py:317 | the sample cue-timing line `00:00.000 --> 00:02.000` contributes nothing (the general drop of lines with `-->` is `Vtt.Passes` with `Vtt.SegmentShape`) |
| Vtt.BlankLineGone | app.py:315 | an empty line contributes nothing |
| Vtt.MinimalDocument | app.py:308-326 | a header, a blank line, a timing line and two plain cue lines parse to the two cue lines joined by one space |
| Vtt.TrailingTagNotIdempotent | app.py:308-326 | `"a <b>"` parses to `"a "`, which parses to `"a"` |
| Vtt.HeaderTagNotIdempotent | app.py:308-326 | `"WEB<i>VTT x"` parses to `"WEBVTT x"`, which parses to `""` |
| VideoId.MatchAt | app.py:28 | the pattern matches at a position: `v=` or `/` there, then eleven characters of `[0-9A-Za-z_-]`, with nothing required after them |
| VideoId.GroupAt | app.py:28-32 | the captured group is exactly 11 characters from `[0-9A-Za-z_-]` |
| VideoId.FirstMatchFrom | app.py:28 | the search tries start positions from left to right and stops at the first one where the pattern matches |
| VideoId.ExtractVideoId | app.py:28-32 | there is no ID exactly when the pattern matches nowhere; an ID found is 11 characters of the class and is the group of the leftmost match |
| VideoId.LeftmostDecides | app.py:28-32 | the leftmost match decides the ID |
| VideoId.WatchUrl | app.py:28-32 | every `https://www.youtube.com/watch?v=<id>...` URL gives `<id>`, whatever follows it |
| VideoId.ShortUrl | app.py:28-32 | every `https://youtu.be/<id>...` URL gives `<id>` |
| VideoId.WatchUrlExample | app.py:28-32 | `https://www.youtube.com/watch?v=dQw4w9WgXcQ` gives `dQw4w9WgXcQ` |
| Strategies.FirstWhere | app.py:150-159 | the index of the first element that satisfies the test, with none before it, or the length when no element does |
| Strategies.FirstWhereUnique | app.py:150-159 | an index that satisfies the test, with none before it, is the first one |
| Strategies.YoutubeDlResult | app.py:91-131 | youtube-dl's result: the parse of the first subtitle file when the run exits with 0 and leaves at least one readable file, however short; `None` otherwise |
| Strategies.TryDirectApi | app.py:133-164 | the loop requests the URLs in order and stops after the first response that qualifies, returning its parse; `tried` is the list of URLs requested |
| Strategies.DirectApiReturns | app.py:150-164 | when the first `k` responses fail and the next one qualifies, or `k == 4`, the result and the number of requests follow |
| Strategies.DirectApiMeaning | app.py:150-164 | the result is `None` exactly when none of the four responses has status 200, a body of more than 100 characters and a non-empty parse; otherwise it is the parse of the first one that does |
| Strategies.WebScrapingResult | app.py:166-205 | web scraping yields `None` whatever the page holds |
| Strategies.TranscriptApiResult | app.py:207-222 | the caption library's result is `None` exactly when the call raises; otherwise it is the cue texts joined with single spaces |
| Strategies.YtDlpResult | app.py:224-277 | yt-dlp yields only parses longer than 100 characters |
| Strategies.Accepted | app.py:65-85 | the test `transcript and len(transcript) > 100` of each step |
| Strategies.Outcomes | app.py:63-86 | there are five strategy results, one per strategy of the fixed order |
| Strategies.GetYoutubeTranscript | app.py:59-89 | the cascade returns `CascadeResult`; `tried` is the fixed order cut after the winning strategy, so later strategies are not run |
| Strategies.CascadeReturns | app.py:63-89 | at each return point, the value returned and the strategies run so far are those of the first accepted result |
| Strategies.FirstAcceptedOfFive | app.py:63-89 | any five results in which the first `n` fail the test and result `n` passes it have `n` as their first accepted index |
| Strategies.CascadeMeaning | app.py:59-89 | the cascade returns `None` exactly when all five results fail `transcript and len(transcript) > 100`; a returned transcript is longer than 100 characters and is the winning strategy's result unchanged, after every earlier one failed |
| Strategies.CascadeStopsAtFirstSuccess | app.py:59-89 | when strategy `n` is the first to pass, exactly strategies `0..n` run and strategy `n`'s result is returned |
| Strategies.WebScrapingNeverWins | app.py:166-205 | web scraping never wins; when nothing is found, all five strategies have run |
| Gemini.Truncate | app.py:358-359 | the result has at most 15003 characters; a text of at most 15000 characters is unchanged; a longer one becomes its first 15000 characters followed by `"..."` |
| Gemini.TruncateKeepsPrefix | app.py:358-359 | what is sent starts with the text's first 15000 characters, or with all of it when the text is shorter |
| Gemini.TruncateIdempotent | app.py:358-359 | truncating twice gives the same as truncating once |
| Gemini.TruncateFixedPoints | app.py:358-359 | truncation leaves a text unchanged exactly when it has at most 15000 characters, or has 15003 and ends in `"..."` |
| Gemini.RequestInput | app.py:354-359 | no input is prepared exactly when the key is unset or empty; otherwise the prepared input is the truncated transcript, of at most 15003 characters |
| Gemini.Summary | app.py:350-407 | without a key the result is the fixed warning; with one it is the service's answer to the key and the truncated transcript |
| Gemini.MissingKeyShortCircuits | app.py:354-355 | without a key the result is the fixed warning, whatever the service would answer |
| Gemini.LongTranscriptsShareInput | app.py:358-359 | two texts longer than 15000 characters that agree on their first 15000 characters send the same request input: those characters followed by `"..."` |
| Handler.VideoInfoOf | app.py:328-348 | the thumbnail is always `https://img.youtube.com/vi/<id>/mqdefault.jpg`; without a usable reply the title and channel are the defaults; a field the reply has is reported as it is, and a missing `title` or `author_name` falls back to `YouTube Video` or `YouTube Kanalı` |
| Handler.VideoInfoFallback | app.py:328-348 | a failed lookup and a reply without either field report the same metadata; the thumbnail never depends on the reply |
| Handler.Answer | app.py:17-57 | the answer to a request: the invalid-URL error without an ID, the `len(None)` error without a transcript, and otherwise the metadata and the summary of the cascade's transcript |
| Handler.Summarize | app.py:17-57 | the handler answers `Answer(...)`; no strategy runs when the URL has no ID, and otherwise the strategies run are those of the cascade |
| Handler.InvalidUrlExactly | app.py:28-30 | the answer is `Geçersiz YouTube URL` exactly when the pattern matches nowhere in the URL |
| Handler.SuccessExactly | app.py:17-57 | the answer is a success exactly when the URL has an ID and some strategy's result passes the test; a success carries that ID's thumbnail and the summary of a transcript longer than 100 characters |
| Handler.NoTranscriptFails | app.py:36-57 | when all five strategies fail, the answer is the error text of `len(None)` |
| Handler.MissingKeySummary | app.py:354-355 | without an API key, every successful answer carries the warning as its summary |

## Left out

- Flask is not modelled: routing, the `OPTIONS` reply, the CORS header hook, serving `index.html` and port start-up. These are framework plumbing without decisions of their own.
- `request.get_json()` is not modelled. `videoUrl` is taken as a string, so a missing body or a missing field raises in Python, and the model does not cover those paths.
- `print` logging is not modelled, since it has no effect on any result.
- HTTP (`requests.get`/`requests.post`), `subprocess.run`, `glob`, `open` and `os.remove` are inputs. The model does not cover timeouts, headers or the command lines of the downloaders. The deletion of temporary files is not modelled, and the model does not claim that it always runs.
- Gemini.Summary: Gemini samples its answer (`temperature`, `topK`, `topP`, app.py:384-389), so two identical requests may get different summaries. The model's service is a function, so the model does not capture this, and its lemmas about the request speak of the input sent, not the summary received.
- The request to Gemini is one abstract service: building the JSON body with the Turkish prompt, posting it, and reading `candidates[0].content.parts[0].text` or returning `Gemini API Hatası ...`. The service gets the key and the truncated transcript (app.py:361-407).
- Handler.VideoInfoOf: a `title` or `author_name` field that is present but JSON `null` is not modelled. A field is either absent (default used) or a string.
- The internals of `youtube_transcript_api` are not modelled. Its answer is `None` when it raises, or else the list of cue texts.
- The regex probes of `try_web_scraping` are not modelled, because their results are only printed. The model keeps the fact that the function returns `None`.
- `get_video_description` (app.py:279-306) is not modelled, because nothing calls it.
- Concurrency is not modelled. That includes two requests for the same video racing on `temp_<id>*.vtt`.
- `str.strip` uses the whitespace set of `str.isspace` from Python's Unicode tables, written out in `Text.IsSpace`.
- Text.IsDigits: `str.isdigit` is modelled for ASCII digits only. As a result, a line of other Unicode digits (say, Arabic-Indic) is kept by the model, while Python drops it.
- Vtt.StripTags: the regex engine is replaced by its leftmost, non-overlapping match semantics for `<[^>]+>`. The engine itself is not modelled.
- Handler.NoTranscriptFails: the text `object of type 'NoneType' has no len()` is the message CPython 3 gives. It is not derived from any interpreter model.

/** The transcript cascade `get_youtube_transcript` (app.py:59-89) and its five
    strategies (app.py:91-277). What the network, the two subtitle
    downloaders and the caption library return is an input, a `World`; the
    decisions the code takes on those answers are modelled. */
module Strategies {
  import opened Wrappers
  import opened Text
  import opened Vtt

  /** The answer to one `requests.get`: it raised, or it returned a status and a body. */
  datatype Probe = Failed | Reply(status: int, body: string)

  /** One subtitle file found by `glob`: `open`/`read` raised, or its text. */
  datatype SubtitleFile = Unreadable | Readable(content: string)

  /** One run of a subtitle downloader: `subprocess.run` raised (a timeout, a
      missing program), or it exited with a return code, leaving the files that
      `glob('temp_{id}*.vtt')` lists, in that order. */
  datatype Download = Crashed | Finished(returnCode: int, files: seq<SubtitleFile>)

  /** Everything outside the program the cascade consults, keyed by what the
      code passes: URLs for HTTP and the downloaders, the video ID for the
      caption library (`None` when it raises, else the cue texts). */
  datatype World = World(
    youtubeDl: string -> Download,
    timedText: string -> Probe,
    watchPage: string -> Probe,
    captionApi: string -> Option<seq<string>>,
    ytDlp: string -> Download)

  datatype Strategy = YoutubeDl | DirectApi | WebScraping | TranscriptApi | YtDlp

  /** The fixed order of app.py:63-86. */
  const Order: seq<Strategy> := [YoutubeDl, DirectApi, WebScraping, TranscriptApi, YtDlp]

  /** The watch URL given to both downloaders and to the page request. */
  function WatchUrl(id: string): string
  {
    "https://www.youtube.com/watch?v=" + id
  }

  /** `urls_to_try` of app.py:139-144. */
  function TimedTextUrls(id: string): seq<string>
  {
    [ "https://www.youtube.com/api/timedtext?lang=tr&v=" + id + "&fmt=vtt",
      "https://www.youtube.com/api/timedtext?lang=en&v=" + id + "&fmt=vtt",
      "https://www.youtube.com/api/timedtext?lang=tr&v=" + id + "&kind=asr&fmt=vtt",
      "https://www.youtube.com/api/timedtext?lang=en&v=" + id + "&kind=asr&fmt=vtt" ]
  }

  /** Index of the first element satisfying `p`, or `|xs|` when none does. */
  function FirstWhere<T>(xs: seq<T>, p: T -> bool): (k: nat)
    ensures k <= |xs|
    ensures k < |xs| ==> p(xs[k])
    ensures forall j :: 0 <= j < k ==> !p(xs[j])
    decreases |xs|
  {
    if xs == [] then 0
    else if p(xs[0]) then 0
    else 1 + FirstWhere(xs[1..], p)
  }

  /** The only index satisfying `p` with none before it is the first one. */
  lemma FirstWhereUnique<T>(xs: seq<T>, p: T -> bool, k: nat)
    requires k <= |xs|
    requires k < |xs| ==> p(xs[k])
    requires forall j :: 0 <= j < k ==> !p(xs[j])
    ensures FirstWhere(xs, p) == k
  {
  }

  // ---------------------------------------------------------------- youtube-dl

  /** `try_youtube_dl` (app.py:91-131): with return code 0 and at least one
      file, the parse of the first file, however short; `None` otherwise. */
  function YoutubeDlResult(run: Download): Option<string>
  {
    match run
    case Crashed => None
    case Finished(code, files) =>
      if code == 0 && |files| > 0 then
        match files[0]
        case Unreadable => None
        case Readable(content) => Some(Transcript(content))
      else None
  }

  // ---------------------------------------------------------------- direct API

  /** A response the loop of app.py:150-159 accepts: status 200, a body of more
      than 100 characters, and a non-empty parse. */
  predicate Qualifies(probe: Probe)
  {
    probe.Reply? && probe.status == 200 && |probe.body| > 100 && Transcript(probe.body) != ""
  }

  /** The four answers, in the order the URLs are tried. */
  function Probes(id: string, fetch: string -> Probe): (ps: seq<Probe>)
    ensures |ps| == 4
    ensures forall k :: 0 <= k < 4 ==> ps[k] == fetch(TimedTextUrls(id)[k])
  {
    var urls := TimedTextUrls(id);
    [fetch(urls[0]), fetch(urls[1]), fetch(urls[2]), fetch(urls[3])]
  }

  /** What `try_direct_youtube_api` returns: the parse of the first qualifying response. */
  function DirectApiResult(id: string, fetch: string -> Probe): Option<string>
  {
    var ps := Probes(id, fetch);
    var k := FirstWhere(ps, Qualifies);
    if k < |ps| then Some(Transcript(ps[k].body)) else None
  }

  /** How many of the four URLs `try_direct_youtube_api` requests. */
  function DirectApiAttempts(id: string, fetch: string -> Probe): nat
  {
    var k := FirstWhere(Probes(id, fetch), Qualifies);
    if k < 4 then k + 1 else 4
  }

  /** `try_direct_youtube_api`: requests the four URLs in order and stops at the
      first that qualifies; a failed request moves on to the next URL.
      `tried` lists the URLs requested. */
  method TryDirectApi(id: string, fetch: string -> Probe) returns (r: Option<string>, tried: seq<string>)
    ensures r == DirectApiResult(id, fetch)
    ensures tried == TimedTextUrls(id)[..DirectApiAttempts(id, fetch)]
  {
    var urls := TimedTextUrls(id);
    tried := [];
    var i := 0;
    while i < |urls|
      invariant 0 <= i <= |urls|
      invariant tried == urls[..i]
      invariant forall j :: 0 <= j < i ==> !Qualifies(fetch(urls[j]))
    {
      var response := fetch(urls[i]);
      tried := tried + [urls[i]];
      assert tried == urls[..i + 1];
      if response.Reply? && response.status == 200 && |response.body| > 100 {
        var transcript := ParseVtt(response.body);
        if transcript != "" {
          DirectApiReturns(id, fetch, i);
          return Some(transcript), tried;
        }
      }
      assert !Qualifies(response);
      i := i + 1;
    }
    DirectApiReturns(id, fetch, 4);
    r := None;
  }

  /** A return point of `try_direct_youtube_api`: the first `k` responses did
      not qualify, and the next one does (or `k == 4`). */
  lemma DirectApiReturns(id: string, fetch: string -> Probe, k: nat)
    requires k <= 4
    requires k < 4 ==> Qualifies(fetch(TimedTextUrls(id)[k]))
    requires forall j :: 0 <= j < k ==> !Qualifies(fetch(TimedTextUrls(id)[j]))
    ensures DirectApiAttempts(id, fetch) == if k < 4 then k + 1 else 4
    ensures DirectApiResult(id, fetch) == if k < 4 then Some(Transcript(fetch(TimedTextUrls(id)[k]).body)) else None
  {
    FirstWhereUnique(Probes(id, fetch), Qualifies, k);
  }

  /** The direct API returns a non-empty parse of a status-200 body of more than
      100 characters, from the first URL whose response qualifies; it returns
      `None` exactly when none of the four does. */
  lemma DirectApiMeaning(id: string, fetch: string -> Probe)
    ensures DirectApiResult(id, fetch).None? <==>
      forall k :: 0 <= k < 4 ==> !Qualifies(fetch(TimedTextUrls(id)[k]))
    ensures DirectApiResult(id, fetch).Some? ==>
      exists k :: 0 <= k < 4 && Qualifies(fetch(TimedTextUrls(id)[k]))
        && DirectApiResult(id, fetch).value == Transcript(fetch(TimedTextUrls(id)[k]).body)
        && DirectApiResult(id, fetch).value != ""
        && forall j :: 0 <= j < k ==> !Qualifies(fetch(TimedTextUrls(id)[j]))
  {
    var ps := Probes(id, fetch);
    var k := FirstWhere(ps, Qualifies);
    if k < 4 {
      assert ps[k] == fetch(TimedTextUrls(id)[k]);
    } else {
      assert forall j :: 0 <= j < 4 ==> ps[j] == fetch(TimedTextUrls(id)[j]);
    }
  }

  // ---------------------------------------------------------------- web scraping

  /** `try_web_scraping` (app.py:166-205): whatever the page holds, the
      regex probes only print, and the function returns `None`. */
  function WebScrapingResult(page: Probe): Option<string>
  {
    None
  }

  // ---------------------------------------------------------------- transcript API

  /** `try_transcript_api` (app.py:207-222): the cue texts joined with spaces. */
  function TranscriptApiResult(cues: Option<seq<string>>): (r: Option<string>)
    ensures r.None? <==> cues.None?
  {
    match cues
    case None => None
    case Some(texts) => Some(Join(texts, " "))
  }

  // ---------------------------------------------------------------- yt-dlp

  /** `try_ytdlp_transcript` (app.py:224-277): like youtube-dl, but a parse of
      100 characters or fewer is discarded. */
  function YtDlpResult(run: Download): (r: Option<string>)
    ensures r.Some? ==> |r.value| > 100
  {
    match run
    case Crashed => None
    case Finished(code, files) =>
      if code == 0 && |files| > 0 then
        match files[0]
        case Unreadable => None
        case Readable(content) =>
          var t := Transcript(content);
          if |t| > 100 then Some(t) else None
      else None
  }

  // ---------------------------------------------------------------- the cascade

  /** The test `transcript and len(transcript) > 100` that accepts a result. */
  predicate Accepted(t: Option<string>)
  {
    t.Some? && t.value != "" && |t.value| > 100
  }

  /** The five strategy results, in cascade order. */
  function Outcomes(id: string, w: World): (os: seq<Option<string>>)
    ensures |os| == |Order| == 5
  {
    [ YoutubeDlResult(w.youtubeDl(WatchUrl(id))),
      DirectApiResult(id, w.timedText),
      WebScrapingResult(w.watchPage(WatchUrl(id))),
      TranscriptApiResult(w.captionApi(id)),
      YtDlpResult(w.ytDlp(WatchUrl(id))) ]
  }

  /** Position in `Order` of the strategy whose result is returned, 5 for none. */
  function Winner(id: string, w: World): nat
  {
    FirstWhere(Outcomes(id, w), Accepted)
  }

  /** What `get_youtube_transcript` returns. */
  function CascadeResult(id: string, w: World): Option<string>
  {
    var k := Winner(id, w);
    if k < 5 then Outcomes(id, w)[k] else None
  }

  /** How many strategies `get_youtube_transcript` runs. */
  function CascadeAttempts(id: string, w: World): nat
  {
    var k := Winner(id, w);
    if k < 5 then k + 1 else 5
  }

  /** `get_youtube_transcript`: runs the strategies in order and returns the
      first accepted result; `tried` lists the strategies run. */
  method GetYoutubeTranscript(id: string, w: World) returns (r: Option<string>, tried: seq<Strategy>)
    ensures r == CascadeResult(id, w)
    ensures tried == Order[..CascadeAttempts(id, w)]
  {
    ghost var os := Outcomes(id, w);
    tried := Order[..1];
    var transcript := YoutubeDlResult(w.youtubeDl(WatchUrl(id)));
    assert transcript == os[0];
    if Accepted(transcript) {
      CascadeReturns(id, w, os, 0, transcript, tried);
      return transcript, tried;
    }

    tried := Order[..2];
    var urlsTried;
    transcript, urlsTried := TryDirectApi(id, w.timedText);
    assert transcript == os[1];
    if Accepted(transcript) {
      CascadeReturns(id, w, os, 1, transcript, tried);
      return transcript, tried;
    }

    tried := Order[..3];
    transcript := WebScrapingResult(w.watchPage(WatchUrl(id)));
    assert transcript == os[2];
    if Accepted(transcript) {
      // never taken: web scraping always yields None
      assert false;
    }

    tried := Order[..4];
    transcript := TranscriptApiResult(w.captionApi(id));
    assert transcript == os[3];
    if Accepted(transcript) {
      CascadeReturns(id, w, os, 3, transcript, tried);
      return transcript, tried;
    }

    tried := Order[..5];
    transcript := YtDlpResult(w.ytDlp(WatchUrl(id)));
    assert transcript == os[4];
    if Accepted(transcript) {
      CascadeReturns(id, w, os, 4, transcript, tried);
      return transcript, tried;
    }

    CascadeReturns(id, w, os, 5, None, tried);
    r := None;
  }

  /** One return point of `get_youtube_transcript`: once strategies `0..n-1`
      have failed the test, returning the result of strategy `n` (or `None`
      after all five) and the strategies run so far is what the cascade does.
      The failures are listed one by one, which keeps the proof obligations
      at the call sites small. */
  lemma CascadeReturns(id: string, w: World, os: seq<Option<string>>, n: nat, t: Option<string>, tried: seq<Strategy>)
    requires os == Outcomes(id, w) && n <= 5
    requires tried == Order[..if n < 5 then n + 1 else 5]
    requires n < 5 ==> Accepted(t) && t == os[n]
    requires n == 5 ==> t == None
    requires n > 0 ==> !Accepted(os[0])
    requires n > 1 ==> !Accepted(os[1])
    requires n > 2 ==> !Accepted(os[2])
    requires n > 3 ==> !Accepted(os[3])
    requires n > 4 ==> !Accepted(os[4])
    ensures t == CascadeResult(id, w) && tried == Order[..CascadeAttempts(id, w)]
  {
    FirstAcceptedOfFive(os, n);
  }

  /** The same facts about any five results fix the first accepted one. */
  lemma FirstAcceptedOfFive(os: seq<Option<string>>, n: nat)
    requires |os| == 5 && n <= 5
    requires n < 5 ==> Accepted(os[n])
    requires n > 0 ==> !Accepted(os[0])
    requires n > 1 ==> !Accepted(os[1])
    requires n > 2 ==> !Accepted(os[2])
    requires n > 3 ==> !Accepted(os[3])
    requires n > 4 ==> !Accepted(os[4])
    ensures FirstWhere(os, Accepted) == n
  {
    assert forall j :: 0 <= j < n ==> !Accepted(os[j]);
    FirstWhereUnique(os, Accepted, n);
  }

  /** A returned transcript is longer than 100 characters and is, unchanged,
      the result of the strategy that won, every earlier one having failed the
      test; `None` is returned exactly when all five fail it. */
  lemma CascadeMeaning(id: string, w: World)
    ensures CascadeResult(id, w).None? <==> forall i :: 0 <= i < 5 ==> !Accepted(Outcomes(id, w)[i])
    ensures CascadeResult(id, w).Some? ==>
      var k := Winner(id, w);
      k < 5 && |CascadeResult(id, w).value| > 100
      && CascadeResult(id, w) == Outcomes(id, w)[k]
      && forall j :: 0 <= j < k ==> !Accepted(Outcomes(id, w)[j])
  {
  }

  /** When strategy `n` is the first to succeed, strategies `0..n` run, in
      order, and the result is strategy `n`'s. */
  lemma CascadeStopsAtFirstSuccess(id: string, w: World, n: nat)
    requires n < 5 && Accepted(Outcomes(id, w)[n])
    requires forall j :: 0 <= j < n ==> !Accepted(Outcomes(id, w)[j])
    ensures CascadeResult(id, w) == Outcomes(id, w)[n]
    ensures CascadeAttempts(id, w) == n + 1
  {
    FirstWhereUnique(Outcomes(id, w), Accepted, n);
  }

  /** Web scraping never yields the transcript. */
  lemma WebScrapingNeverWins(id: string, w: World)
    ensures Winner(id, w) != 2
    ensures CascadeResult(id, w).None? ==> CascadeAttempts(id, w) == 5
  {
    assert Outcomes(id, w)[2] == None;
  }
}

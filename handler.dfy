/** The `/api/summarize` handler `summarize` (app.py:17-57) and the video
    metadata it reports (`get_video_info`, app.py:328-348). The request body,
    the oEmbed reply and the Gemini service are inputs. */
module Handler {
  import opened Wrappers
  import opened VideoId
  import opened Strategies
  import opened Gemini

  /** The error text for a URL without a video ID (app.py:30). */
  const InvalidUrlMessage: string := "Geçersiz YouTube URL"

  /** `str(e)` for the `TypeError` that `len(None)` raises at app.py:37 once
      every strategy has failed. */
  const NoTranscriptMessage: string := "object of type 'NoneType' has no len()"

  const DefaultTitle: string := "YouTube Video"
  const DefaultChannel: string := "YouTube Kanalı"

  /** The answer of the oEmbed endpoint: no usable reply (an exception or a
      status other than 200), or the `title` and `author_name` fields, each
      absent or present. */
  datatype OEmbed = Unavailable | Found(title: Option<string>, authorName: Option<string>)

  datatype VideoInfo = VideoInfo(title: string, channel: string, thumbnail: string)

  /** The JSON object the handler returns. */
  datatype Response =
    | Success(title: string, channel: string, thumbnail: string, summary: string)
    | Failure(error: string)

  /** The oEmbed URL requested by `get_video_info`. */
  function OEmbedUrl(id: string): string
  {
    "https://www.youtube.com/oembed?url=https://www.youtube.com/watch?v=" + id + "&format=json"
  }

  /** The thumbnail reported on every path of `get_video_info`. */
  function ThumbnailUrl(id: string): string
  {
    "https://img.youtube.com/vi/" + id + "/mqdefault.jpg"
  }

  /** `data.get(field, default)`. */
  function FieldOr(field: Option<string>, default: string): string
  {
    match field
    case None => default
    case Some(v) => v
  }

  /** `get_video_info(video_id)` given the oEmbed answer. */
  function VideoInfoOf(id: string, answer: OEmbed): (info: VideoInfo)
    ensures info.thumbnail == ThumbnailUrl(id)
    ensures answer.Unavailable? ==> info.title == DefaultTitle && info.channel == DefaultChannel
    ensures answer.Found? && answer.title.Some? ==> info.title == answer.title.value
    ensures answer.Found? && answer.authorName.Some? ==> info.channel == answer.authorName.value
    ensures answer.Found? && answer.title.None? ==> info.title == DefaultTitle
    ensures answer.Found? && answer.authorName.None? ==> info.channel == DefaultChannel
  {
    match answer
    case Unavailable => VideoInfo(DefaultTitle, DefaultChannel, ThumbnailUrl(id))
    case Found(title, author) => VideoInfo(FieldOr(title, DefaultTitle), FieldOr(author, DefaultChannel), ThumbnailUrl(id))
  }

  /** A failed lookup and a reply without either field report the same
      metadata, and only the thumbnail depends on the video ID alone. */
  lemma VideoInfoFallback(id: string, answer: OEmbed)
    ensures VideoInfoOf(id, Unavailable) == VideoInfoOf(id, Found(None, None))
    ensures VideoInfoOf(id, answer).thumbnail == VideoInfoOf(id, Unavailable).thumbnail
  {
  }

  /** What `summarize` answers to a POST carrying `videoUrl`. */
  function Answer(videoUrl: string, w: World, oembed: string -> OEmbed, key: Option<string>,
                  gemini: (string, string) -> string): Response
  {
    match ExtractVideoId(videoUrl)
    case None => Failure(InvalidUrlMessage)
    case Some(id) =>
      match CascadeResult(id, w)
      case None => Failure(NoTranscriptMessage)
      case Some(transcript) =>
        var info := VideoInfoOf(id, oembed(OEmbedUrl(id)));
        Success(info.title, info.channel, info.thumbnail, Summary(key, transcript, gemini))
  }

  /** `summarize`: extract the ID, run the cascade, fetch the metadata and the
      summary. `tried` lists the strategies the cascade runs: none when the URL
      has no ID. */
  method Summarize(videoUrl: string, w: World, oembed: string -> OEmbed, key: Option<string>,
                   gemini: (string, string) -> string) returns (resp: Response, tried: seq<Strategy>)
    ensures resp == Answer(videoUrl, w, oembed, key, gemini)
    ensures ExtractVideoId(videoUrl).None? ==> tried == []
    ensures ExtractVideoId(videoUrl).Some? ==>
      tried == Order[..CascadeAttempts(ExtractVideoId(videoUrl).value, w)]
  {
    var found := ExtractVideoId(videoUrl);
    if found.None? {
      return Failure(InvalidUrlMessage), [];
    }
    var id := found.value;
    var transcript;
    transcript, tried := GetYoutubeTranscript(id, w);
    if transcript.None? {
      return Failure(NoTranscriptMessage), tried;
    }
    var info := VideoInfoOf(id, oembed(OEmbedUrl(id)));
    var summary := Summary(key, transcript.value, gemini);
    resp := Success(info.title, info.channel, info.thumbnail, summary);
  }

  /** The invalid-URL error is returned exactly for URLs without a video ID. */
  lemma InvalidUrlExactly(videoUrl: string, w: World, oembed: string -> OEmbed, key: Option<string>,
                          gemini: (string, string) -> string)
    ensures Answer(videoUrl, w, oembed, key, gemini) == Failure(InvalidUrlMessage)
      <==> forall q :: 0 <= q < |videoUrl| ==> !MatchAt(videoUrl, q)
  {
    if ExtractVideoId(videoUrl).Some? {
      assert InvalidUrlMessage != NoTranscriptMessage by { assert InvalidUrlMessage[0] != NoTranscriptMessage[0]; }
    }
  }

  /** The handler succeeds exactly when the URL has an ID and some strategy's
      result passes the cascade's test; it then reports the metadata of that
      ID and the summary of a transcript longer than 100 characters. */
  lemma SuccessExactly(videoUrl: string, w: World, oembed: string -> OEmbed, key: Option<string>,
                       gemini: (string, string) -> string)
    ensures Answer(videoUrl, w, oembed, key, gemini).Success? <==>
      ExtractVideoId(videoUrl).Some? &&
      exists i :: 0 <= i < 5 && Accepted(Outcomes(ExtractVideoId(videoUrl).value, w)[i])
    ensures Answer(videoUrl, w, oembed, key, gemini).Success? ==>
      var id := ExtractVideoId(videoUrl).value;
      var resp := Answer(videoUrl, w, oembed, key, gemini);
      IsVideoId(id) && resp.thumbnail == ThumbnailUrl(id)
      && exists t :: |t| > 100 && Some(t) == CascadeResult(id, w) && resp.summary == Summary(key, t, gemini)
  {
    if ExtractVideoId(videoUrl).Some? {
      var id := ExtractVideoId(videoUrl).value;
      CascadeMeaning(id, w);
      if CascadeResult(id, w).Some? {
        var t := CascadeResult(id, w).value;
        assert Some(t) == CascadeResult(id, w);
      }
    }
  }

  /** When every strategy fails, the handler reports the `len(None)` error. */
  lemma NoTranscriptFails(videoUrl: string, w: World, oembed: string -> OEmbed, key: Option<string>,
                          gemini: (string, string) -> string)
    requires ExtractVideoId(videoUrl).Some?
    requires forall i :: 0 <= i < 5 ==> !Accepted(Outcomes(ExtractVideoId(videoUrl).value, w)[i])
    ensures Answer(videoUrl, w, oembed, key, gemini) == Failure(NoTranscriptMessage)
  {
    CascadeMeaning(ExtractVideoId(videoUrl).value, w);
  }

  /** Without an API key every successful answer carries the warning as its summary. */
  lemma MissingKeySummary(videoUrl: string, w: World, oembed: string -> OEmbed, key: Option<string>,
                          gemini: (string, string) -> string)
    requires KeyMissing(key)
    ensures Answer(videoUrl, w, oembed, key, gemini).Success? ==>
      Answer(videoUrl, w, oembed, key, gemini).summary == MissingKeyMessage
  {
  }
}

/** The video-ID step of `summarize` (app.py:28-32):
    `re.search(r'(?:v=|\/)([0-9A-Za-z_-]{11})', video_url)` and `group(1)`. */
module VideoId {
  import opened Wrappers

  /** The character class `[0-9A-Za-z_-]`. */
  predicate IsIdChar(c: char)
  {
    ('0' <= c <= '9') || ('A' <= c <= 'Z') || ('a' <= c <= 'z') || c == '_' || c == '-'
  }

  /** Exactly 11 characters of the class. */
  predicate IsVideoId(s: string)
  {
    |s| == 11 && forall i :: 0 <= i < |s| ==> IsIdChar(s[i])
  }

  /** The pattern matches starting at position `p`: `v=` or `/`, then eleven
      characters of the class. Nothing is required after them. */
  predicate MatchAt(url: string, p: int)
  {
    0 <= p
    && ((p + 13 <= |url| && url[p] == 'v' && url[p + 1] == '=' && IsVideoId(url[p + 2..p + 13]))
        || (p + 12 <= |url| && url[p] == '/' && IsVideoId(url[p + 1..p + 12])))
  }

  /** The captured group of a match at `p`. */
  function GroupAt(url: string, p: int): (id: string)
    requires MatchAt(url, p)
    ensures IsVideoId(id)
  {
    if url[p] == 'v' then url[p + 2..p + 13] else url[p + 1..p + 12]
  }

  /** The first position at or after `p` where the pattern matches, or `|url|`
      when there is none: `re.search` tries start positions left to right. */
  function FirstMatchFrom(url: string, p: nat): (k: nat)
    requires p <= |url|
    ensures p <= k <= |url|
    ensures k < |url| ==> MatchAt(url, k)
    ensures forall q :: p <= q < k ==> !MatchAt(url, q)
    decreases |url| - p
  {
    if p == |url| then p
    else if MatchAt(url, p) then p
    else FirstMatchFrom(url, p + 1)
  }

  /** `match.group(1)` when the search succeeds, `None` when it does not. */
  function ExtractVideoId(url: string): (r: Option<string>)
    ensures r.None? <==> forall q :: 0 <= q < |url| ==> !MatchAt(url, q)
    ensures r.Some? ==> IsVideoId(r.value)
    ensures r.Some? ==> exists p :: 0 <= p < |url| && MatchAt(url, p) && r.value == GroupAt(url, p)
                                    && forall q :: 0 <= q < p ==> !MatchAt(url, q)
  {
    var k := FirstMatchFrom(url, 0);
    if k < |url| then Some(GroupAt(url, k)) else None
  }

  /** A match at `p` with none before it decides the result. */
  lemma LeftmostDecides(url: string, p: nat)
    requires MatchAt(url, p)
    requires forall q :: 0 <= q < p ==> !MatchAt(url, q)
    ensures ExtractVideoId(url) == Some(GroupAt(url, p))
  {
    var k := FirstMatchFrom(url, 0);
    assert k == p;
  }

  /** The ID of every watch URL `https://www.youtube.com/watch?v=<id>...` is
      found, whatever follows it. */
  lemma WatchUrl(id: string, rest: string)
    requires IsVideoId(id)
    ensures ExtractVideoId("https://www.youtube.com/watch?v=" + id + rest) == Some(id)
  {
    var prefix := "https://www.youtube.com/watch?v=";
    var url := prefix + id + rest;
    assert forall i :: 0 <= i < |prefix| ==> url[i] == prefix[i];
    assert url[32..43] == id;
    forall q | 0 <= q < 30 ensures !MatchAt(url, q) {
      if q == 6 { assert url[7] == prefix[7] == '/'; assert url[7..18][0] == '/'; }
      else if q == 7 { assert url[11] == prefix[11] == '.'; assert url[8..19][3] == '.'; }
      else if q == 23 { assert url[24..35][5] == '?'; }
    }
    assert MatchAt(url, 30);
    LeftmostDecides(url, 30);
  }

  /** The ID of every short link `https://youtu.be/<id>...` is found. */
  lemma ShortUrl(id: string, rest: string)
    requires IsVideoId(id)
    ensures ExtractVideoId("https://youtu.be/" + id + rest) == Some(id)
  {
    var prefix := "https://youtu.be/";
    var url := prefix + id + rest;
    assert forall i :: 0 <= i < |prefix| ==> url[i] == prefix[i];
    assert url[17..28] == id;
    forall q | 0 <= q < 16 ensures !MatchAt(url, q) {
      if q == 6 { assert url[7..18][0] == '/'; }
      else if q == 7 { assert url[8..19][5] == '.'; }
    }
    assert MatchAt(url, 16);
    LeftmostDecides(url, 16);
  }

  /** The ID of the example watch URL. */
  lemma WatchUrlExample(url: string)
    requires url == "https://www.youtube.com/watch?v=dQw4w9WgXcQ"
    ensures ExtractVideoId(url) == Some("dQw4w9WgXcQ")
  {
    var id := url[32..];
    assert id == "dQw4w9WgXcQ";
    ExampleId(id);
    assert url == "https://www.youtube.com/watch?v=" + id + "";
    WatchUrl(id, "");
  }

  lemma ExampleId(id: string)
    requires id == "dQw4w9WgXcQ"
    ensures IsVideoId(id)
  {
  }
}

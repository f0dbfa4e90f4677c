/**
 * The link helpers of src/lib/youtube.ts: pulling the video id out of a
 * link, building the thumbnail address, and resolving a link into the
 * video's metadata with the oEmbed request abstracted as a parameter.
 *
 * Strings are JavaScript strings: each `char` stands for one UTF-16 code
 * unit, which is what both the regular expression and `.length` count.
 */
module YouTube {
  import opened Results

  // ---------------------------------------------------------------------
  // Character classes of the regular expression
  //   /^.*(youtu.be\/|v\/|u\/\w\/|embed\/|watch\?v=|\&v=)([^#\&\?]*).*/
  // ---------------------------------------------------------------------

  /** The characters JavaScript's `.` refuses to match. */
  predicate IsLineTerminator(c: char) {
    c == '\n' || c == '\r' || c == '\U{2028}' || c == '\U{2029}'
  }

  /** `\w`: an ASCII letter, digit or underscore. */
  predicate IsWordChar(c: char) {
    ('a' <= c <= 'z') || ('A' <= c <= 'Z') || ('0' <= c <= '9') || c == '_'
  }

  /** `[^#\&\?]`: a character the captured id may contain. */
  predicate IsIdChar(c: char) {
    c != '#' && c != '&' && c != '?'
  }

  /**
   * The length of the alternative of the marker group that matches at
   * position `i`, or 0 when none does. The six alternatives begin with six
   * different characters, so at most one of them matches at a position.
   */
  function MarkerLength(url: string, i: nat): (n: nat)
    ensures n in {0, 2, 3, 4, 6, 8, 9}
    ensures n > 0 ==> i + n <= |url|
  {
    if i + 9 <= |url| && url[i..i + 5] == "youtu" && !IsLineTerminator(url[i + 5])
       && url[i + 6..i + 9] == "be/" then 9
    else if i + 2 <= |url| && url[i..i + 2] == "v/" then 2
    else if i + 4 <= |url| && url[i..i + 2] == "u/" && IsWordChar(url[i + 2]) && url[i + 3] == '/' then 4
    else if i + 6 <= |url| && url[i..i + 6] == "embed/" then 6
    else if i + 8 <= |url| && url[i..i + 8] == "watch?v=" then 8
    else if i + 3 <= |url| && url[i..i + 3] == "&v=" then 3
    else 0
  }

  /**
   * Every alternative of the marker group starts with one of `y v u e w &`
   * and ends with `/` or `=`.
   */
  lemma MarkerShape(url: string, i: nat)
    ensures MarkerLength(url, i) == 0
            || (url[i] in "yvuew&" && url[i + MarkerLength(url, i) - 1] in "/="
                && (url[i + MarkerLength(url, i) - 1] == '=' <==> url[i] in "w&"))
  {
    var n := MarkerLength(url, i);
    if n > 0 {
      assert url[i] == url[i..i + n][0];
      assert url[i + n - 1] == url[i..i + n][n - 1];
    }
  }

  /** `^.*` can stretch from the start of `url` to position `i`. */
  ghost predicate InFirstLine(url: string, i: int) {
    0 <= i <= |url| && forall k :: 0 <= k < i ==> !IsLineTerminator(url[k])
  }

  /** Where the leading `^.*` must stop: the first line terminator, or the end. */
  function LineEnd(url: string): (n: nat)
    ensures InFirstLine(url, n)
    ensures n < |url| ==> IsLineTerminator(url[n])
  {
    if url == [] || IsLineTerminator(url[0]) then 0 else 1 + LineEnd(url[1..])
  }

  /** The marker group can match at `i` after `^.*` has consumed `url[..i]`. */
  ghost predicate MatchesAt(url: string, i: int) {
    InFirstLine(url, i) && MarkerLength(url, i) > 0
  }

  /**
   * The position the regular expression settles on: the greedy `^.*` gives
   * back characters one at a time, so the marker group is tried at the
   * largest position first and the first position where it matches wins.
   */
  ghost predicate GreedyMarker(url: string, i: int) {
    MatchesAt(url, i) && forall j :: i < j <= |url| ==> !MatchesAt(url, j)
  }

  /** `run` is what the greedy group `([^#\&\?]*)` captures at the start of `s`. */
  ghost predicate IsMaximalRun(s: string, run: string) {
    && run <= s
    && (forall k :: 0 <= k < |run| ==> IsIdChar(run[k]))
    && (|run| < |s| ==> !IsIdChar(s[|run|]))
  }

  /** The longest prefix of `s` made of id characters. */
  function IdRun(s: string): (run: string)
    ensures IsMaximalRun(s, run)
  {
    if s == [] || !IsIdChar(s[0]) then [] else [s[0]] + IdRun(s[1..])
  }

  /** A string has one maximal run: the capture is determined by where it starts. */
  lemma MaximalRunUnique(s: string, a: string, b: string)
    requires IsMaximalRun(s, a) && IsMaximalRun(s, b)
    ensures a == b
  {
    assert |b| <= |a|;
    assert |a| <= |b|;
  }

  /**
   * The largest position no later than `i` where a marker starts, searching
   * downwards as the backtracking of `^.*` does.
   */
  function LastMarkerAtOrBefore(url: string, i: nat): (r: Option<nat>)
    ensures r.Some? ==> r.value <= i && MarkerLength(url, r.value) > 0
    ensures r.Some? ==> forall j :: r.value < j <= i ==> MarkerLength(url, j) == 0
    ensures r.None? ==> forall j :: 0 <= j <= i ==> MarkerLength(url, j) == 0
  {
    if MarkerLength(url, i) > 0 then Some(i)
    else if i == 0 then None
    else LastMarkerAtOrBefore(url, i - 1)
  }

  /**
   * `extractVideoId`: the capture after the marker the regular expression
   * settles on, when it is exactly 11 code units long.
   */
  function ExtractVideoId(url: string): (r: Option<string>)
    ensures r.Some? ==> |r.value| == 11
    ensures r.Some? ==> forall k :: 0 <= k < |r.value| ==> IsIdChar(r.value[k])
  {
    match LastMarkerAtOrBefore(url, LineEnd(url))
    case None => None
    case Some(i) =>
      var id := IdRun(url[i + MarkerLength(url, i)..]);
      if |id| == 11 then Some(id) else None
  }

  /** Every position the scan of ExtractVideoId looks at is one `^.*` can reach. */
  lemma MatchesAtIffFirstLine(url: string, i: int)
    requires 0 <= i
    ensures MatchesAt(url, i) <==> i <= LineEnd(url) && MarkerLength(url, i) > 0
  {
    var e := LineEnd(url);
    assert MatchesAt(url, i) ==> i <= e;
  }

  /**
   * Given the position the regular expression settles on and the run it
   * captures there, ExtractVideoId returns that run when it has 11 code
   * units and null otherwise, whatever earlier markers would have captured.
   */
  lemma {:induction false} ExtractVideoIdAtGreedyMarker(url: string, i: nat, run: string)
    requires GreedyMarker(url, i)
    requires IsMaximalRun(url[i + MarkerLength(url, i)..], run)
    ensures ExtractVideoId(url) == (if |run| == 11 then Some(run) else None)
  {
    var e := LineEnd(url);
    MatchesAtIffFirstLine(url, i);
    assert i <= e;
    var found := LastMarkerAtOrBefore(url, e);
    assert found.Some?;
    var p := found.value;
    MatchesAtIffFirstLine(url, p);
    assert p <= i;  // a marker after i would be reachable, against GreedyMarker
    assert i <= p;  // the scan stops at the largest marker position up to e
    var rest := url[i + MarkerLength(url, i)..];
    MaximalRunUnique(rest, run, IdRun(rest));
  }

  /** A URL in whose first line no marker occurs yields null. */
  lemma ExtractVideoIdWithoutMarker(url: string)
    requires forall i :: 0 <= i <= |url| ==> !MatchesAt(url, i)
    ensures ExtractVideoId(url) == None
  {
    var e := LineEnd(url);
    var found := LastMarkerAtOrBefore(url, e);
    if found.Some? {
      MatchesAtIffFirstLine(url, found.value);
      assert MatchesAt(url, found.value);
    }
  }

  /** A non-null result is the run captured after the rightmost marker. */
  lemma ExtractVideoIdFound(url: string)
    requires ExtractVideoId(url).Some?
    ensures exists i :: GreedyMarker(url, i)
                        && IsMaximalRun(url[i + MarkerLength(url, i)..], ExtractVideoId(url).value)
  {
    var e := LineEnd(url);
    var i := LastMarkerAtOrBefore(url, e).value;
    MatchesAtIffFirstLine(url, i);
    forall j | i < j <= |url|
      ensures !MatchesAt(url, j)
    {
      MatchesAtIffFirstLine(url, j);
    }
    assert GreedyMarker(url, i);
  }

  /** A link whose only marker is followed by 11 id characters yields those characters. */
  lemma SingleMarkerExample()
    ensures ExtractVideoId("v/ABCDEFGHIJK") == Some("ABCDEFGHIJK")
  {
    var url := "v/ABCDEFGHIJK";
    assert url[0..2] == "v/";
    assert MarkerLength(url, 0) == 2 by {
      assert url[0] != 'y';
    }
    forall j | 0 < j <= |url|
      ensures !MatchesAt(url, j)
    {
      MarkerShape(url, j);
    }
    assert IsMaximalRun(url[2..], "ABCDEFGHIJK");
    ExtractVideoIdAtGreedyMarker(url, 0, "ABCDEFGHIJK");
  }

  /**
   * The rightmost marker decides: the 11 characters after the first marker
   * are lost because a later marker captures a single character.
   */
  lemma RightmostMarkerDecides()
    ensures ExtractVideoId("v/ABCDEFGHIJK&v/x") == None
  {
    var url := "v/ABCDEFGHIJK&v/x";
    assert url[14..16] == "v/";
    assert MarkerLength(url, 14) == 2 by {
      assert url[14] != 'y';
    }
    assert InFirstLine(url, 14);
    forall j | 14 < j <= |url|
      ensures !MatchesAt(url, j)
    {
      MarkerShape(url, j);
    }
    assert IsMaximalRun(url[16..], "x");
    ExtractVideoIdAtGreedyMarker(url, 14, "x");
  }

  // ---------------------------------------------------------------------
  // Thumbnail and oEmbed addresses
  // ---------------------------------------------------------------------

  const ThumbnailPrefix: string := "https://img.youtube.com/vi/"
  const ThumbnailSuffix: string := "/0.jpg"

  /** `getThumbnailUrl`: the address of the video's first thumbnail image. */
  function GetThumbnailUrl(videoId: string): (url: string)
    ensures |url| == |ThumbnailPrefix| + |videoId| + |ThumbnailSuffix|
    ensures ThumbnailPrefix <= url
    ensures url[|ThumbnailPrefix|..|url| - |ThumbnailSuffix|] == videoId
    ensures url[|url| - |ThumbnailSuffix|..] == ThumbnailSuffix
  {
    ThumbnailPrefix + videoId + ThumbnailSuffix
  }

  /** Reads the video id back out of a thumbnail address. */
  function ThumbnailVideoId(url: string): (r: Option<string>)
    ensures r.Some? ==> |url| == |ThumbnailPrefix| + |r.value| + |ThumbnailSuffix|
  {
    if |url| >= |ThumbnailPrefix| + |ThumbnailSuffix|
       && url[..|ThumbnailPrefix|] == ThumbnailPrefix
       && url[|url| - |ThumbnailSuffix|..] == ThumbnailSuffix
    then Some(url[|ThumbnailPrefix|..|url| - |ThumbnailSuffix|])
    else None
  }

  /** The thumbnail address names its video: reading it back gives the id. */
  lemma ThumbnailRoundTrip(videoId: string)
    ensures ThumbnailVideoId(GetThumbnailUrl(videoId)) == Some(videoId)
  {
    var url := GetThumbnailUrl(videoId);
    assert url[..|ThumbnailPrefix|] == ThumbnailPrefix;
  }

  /** Parsing accepts exactly the addresses GetThumbnailUrl builds. */
  lemma ThumbnailVideoIdSound(url: string)
    requires ThumbnailVideoId(url).Some?
    ensures GetThumbnailUrl(ThumbnailVideoId(url).value) == url
  {
    var id := ThumbnailVideoId(url).value;
    var p, s := |ThumbnailPrefix|, |ThumbnailSuffix|;
    assert url == url[..p] + url[p..|url| - s] + url[|url| - s..];
  }

  /** Two different videos never share a thumbnail address. */
  lemma ThumbnailInjective(a: string, b: string)
    requires GetThumbnailUrl(a) == GetThumbnailUrl(b)
    ensures a == b
  {
    ThumbnailRoundTrip(a);
    ThumbnailRoundTrip(b);
  }

  /** The watch page of a video, as written into the oEmbed request. */
  function WatchUrl(videoId: string): string {
    "https://www.youtube.com/watch?v=" + videoId
  }

  /** The characters YouTube uses in video ids: `\w` and `-`. */
  predicate IsVideoIdChar(c: char) {
    IsWordChar(c) || c == '-'
  }

  /** The scheme and host of a watch page hold no line terminator. */
  lemma WatchUrlHostInFirstLine(videoId: string)
    ensures InFirstLine(WatchUrl(videoId), 24)
  {
    var url := WatchUrl(videoId);
    var host := "https://www.youtube.com/";
    assert url[..24] == host;
    forall k | 0 <= k < 24
      ensures !IsLineTerminator(url[k])
    {
      assert url[k] == host[k];
    }
  }

  /** No marker starts inside `watch?v=` after its first character. */
  lemma WatchUrlNoMarkerInQuery(videoId: string, j: nat)
    requires 24 < j < 32
    ensures MarkerLength(WatchUrl(videoId), j) == 0
  {
    var url := WatchUrl(videoId);
    var query := "atch?v=";
    assert url[25..32] == query;
    assert url[j] == query[j - 25];
    MarkerShape(url, j);
    if url[j] == 'v' {
      assert j == 30 && url[31] == '=';
      assert url[30..32] == "v=";
    }
  }

  /** The watch page of a video id parses back to that id. */
  lemma WatchUrlRoundTrip(videoId: string)
    requires |videoId| == 11
    requires forall k :: 0 <= k < |videoId| ==> IsVideoIdChar(videoId[k])
    ensures ExtractVideoId(WatchUrl(videoId)) == Some(videoId)
  {
    var url := WatchUrl(videoId);
    assert url[24..32] == "watch?v=";
    assert MarkerLength(url, 24) == 8 by {
      assert url[24] == 'w';
    }
    WatchUrlHostInFirstLine(videoId);
    assert forall k | 32 <= k < |url| :: url[k] == videoId[k - 32];
    forall j | 24 < j <= |url|
      ensures !MatchesAt(url, j)
    {
      if j < 32 {
        WatchUrlNoMarkerInQuery(videoId, j);
      } else {
        MarkerShape(url, j);
      }
    }
    assert url[32..] == videoId;
    ExtractVideoIdAtGreedyMarker(url, 24, videoId);
  }

  /** The oEmbed request `getVideoInfo` sends for a video id. */
  function OEmbedRequestUrl(videoId: string): string {
    "https://www.youtube.com/oembed?url=" + WatchUrl(videoId) + "&format=json"
  }

  // ---------------------------------------------------------------------
  // getVideoInfo
  // ---------------------------------------------------------------------

  /** The two errors `getVideoInfo` throws. */
  datatype VideoError =
    | InvalidYouTubeUrl   // 'Invalid YouTube URL'
    | FetchFailed         // 'Failed to fetch video information. ...'

  /**
   * What the oEmbed endpoint gives back for a request address: either the
   * request (or the reading of its JSON body) fails, or a response arrives
   * whose `title` field may be missing, in which case the title is null.
   */
  datatype OEmbedResponse = RequestFailed | Response(title: Option<string>)

  datatype VideoInfo = VideoInfo(videoId: string, title: Option<string>, thumbnailUrl: string)

  /**
   * `getVideoInfo`. `oembed` stands for the oEmbed endpoint, applied to the
   * request address built from the extracted id.
   */
  function GetVideoInfo(url: string, oembed: string -> OEmbedResponse): (r: Result<VideoInfo, VideoError>)
    ensures ExtractVideoId(url).None? ==> r == Err(InvalidYouTubeUrl)
    ensures ExtractVideoId(url).Some? && oembed(OEmbedRequestUrl(ExtractVideoId(url).value)).RequestFailed?
            ==> r == Err(FetchFailed)
    ensures ExtractVideoId(url).Some? && oembed(OEmbedRequestUrl(ExtractVideoId(url).value)).Response?
            ==> r.Ok?
    ensures r.Ok? ==> Some(r.value.videoId) == ExtractVideoId(url)
    ensures r.Ok? ==> oembed(OEmbedRequestUrl(r.value.videoId)) == Response(r.value.title)
    ensures r.Ok? ==> r.value.thumbnailUrl == GetThumbnailUrl(r.value.videoId)
    ensures r.Ok? ==> ThumbnailVideoId(r.value.thumbnailUrl) == Some(r.value.videoId)
  {
    match ExtractVideoId(url)
    case None => Err(InvalidYouTubeUrl)
    case Some(videoId) =>
      match oembed(OEmbedRequestUrl(videoId))
      case RequestFailed => Err(FetchFailed)
      case Response(title) =>
        ThumbnailRoundTrip(videoId);
        Ok(VideoInfo(videoId, title, GetThumbnailUrl(videoId)))
  }

  /** An invalid link fails before any request: the endpoint's answer does not matter. */
  lemma InvalidUrlNeverFetches(url: string, f: string -> OEmbedResponse, g: string -> OEmbedResponse)
    requires ExtractVideoId(url).None?
    ensures GetVideoInfo(url, f) == GetVideoInfo(url, g) == Err(InvalidYouTubeUrl)
  {
  }
}

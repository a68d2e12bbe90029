/** `fetch_video_info` and the URL tests it relies on. The network is a parameter:
    a `Net` says what each request would answer. */
module VideoFetch {
  import opened Wrappers
  import opened Text
  import opened UrlCanon

  /** A cache record. `None` stands for a JSON null or an absent key alike, since the
      scripts only ever read records with `.get`. */
  datatype Info = Info(title: Option<string>, thumbnail: Option<string>, source: Option<string>,
                       error: Option<string>, fetchedAt: Option<string>)

  /** What the network answers:
      - `oembedTitle(url)`: the `title` string of YouTube's oEmbed reply for `url`, or `None`
        when the request fails, the status is not 200 or the title is not a string;
      - `headOk(url)`: whether a HEAD request ends with a 2xx status;
      - `page(url)`: the HTML of `url`, or `None` when the GET fails;
      - `metaContent(html, prop)`: the HTML-unescaped `content` of the first
        `<meta property|name=prop>` tag, or `None` when the pattern does not match. */
  datatype Net = Net(oembedTitle: string -> Option<string>,
                     headOk: string -> bool,
                     page: string -> Option<string>,
                     metaContent: (string, string) -> Option<string>)

  predicate IsYoutube(u: Url) {
    Contains(Lower(u.netloc), "youtube.com") || Contains(Lower(u.netloc), "youtu.be")
  }

  predicate IsTwitch(u: Url) {
    Contains(Lower(u.netloc), "twitch.tv")
  }

  /** The host tests ignore case: they see the network location only through `Lower`. */
  lemma HostTestsIgnoreCase(u: Url, v: Url)
    requires Lower(u.netloc) == Lower(v.netloc)
    ensures IsYoutube(u) == IsYoutube(v) && IsTwitch(u) == IsTwitch(v)
  {
  }

  /** A text occurs in any text that has it after some prefix. */
  lemma {:induction false} ContainsAfter(p: string, t: string, q: string)
    ensures Contains(p + t + q, t)
    decreases |p|
  {
    if p == [] {
      assert p + t + q == t + q;
      assert StartsWith(t + q, t);
    } else {
      assert (p + t + q)[1..] == p[1..] + t + q;
      ContainsAfter(p[1..], t, q);
    }
  }

  /** A text never occurs in a shorter one. */
  lemma {:induction false} NotContainsLonger(s: string, t: string)
    requires |s| < |t|
    ensures !Contains(s, t)
    decreases |s|
  {
    if s != [] {
      NotContainsLonger(s[1..], t);
    }
  }

  /** A short link is a YouTube link and not a Twitch one. */
  lemma ShortLinkIsYoutube(u: Url)
    requires Lower(u.netloc) == ShortLinkHost
    ensures IsYoutube(u) && !IsTwitch(u)
  {
    ContainsAfter("", ShortLinkHost, "");
    assert "" + ShortLinkHost + "" == ShortLinkHost;
    NotContainsLonger(ShortLinkHost, "twitch.tv");
  }

  /** A Twitch host in any case, with any prefix such as `www.`, is a Twitch link. */
  lemma TwitchHost(u: Url, prefix: string)
    requires Lower(u.netloc) == prefix + "twitch.tv"
    ensures IsTwitch(u)
  {
    ContainsAfter(prefix, "twitch.tv", "");
    assert prefix + "twitch.tv" + "" == prefix + "twitch.tv";
  }

  // ---------------------------------------------------------------------------------
  // The video-id pattern (?:v=|/shorts/|/embed/)([A-Za-z0-9_-]{6,}), searched leftmost

  predicate IsIdChar(c: char) {
    'A' <= c <= 'Z' || 'a' <= c <= 'z' || '0' <= c <= '9' || c == '_' || c == '-'
  }

  /** The longest prefix of id characters: what the greedy group takes. */
  function IdRun(s: string): (r: string)
    ensures |r| <= |s| && r == s[..|r|]
    ensures forall i :: 0 <= i < |r| ==> IsIdChar(r[i])
    ensures |r| < |s| ==> !IsIdChar(s[|r|])
  {
    if s != [] && IsIdChar(s[0]) then [s[0]] + IdRun(s[1..]) else []
  }

  const IdMarkers: seq<string> := ["v=", "/shorts/", "/embed/"]

  /** The pattern matched at position `i`: the markers are tried in order, and one
      followed by fewer than six id characters lets the next one be tried. */
  function MatchAt(s: string, i: nat): (r: Option<string>)
    requires i <= |s|
    ensures r.Some? ==> |r.value| >= 6 && forall k :: 0 <= k < |r.value| ==> IsIdChar(r.value[k])
  {
    MatchMarkers(s[i..], IdMarkers)
  }

  function MatchMarkers(t: string, markers: seq<string>): (r: Option<string>)
    ensures r.Some? ==> |r.value| >= 6 && forall k :: 0 <= k < |r.value| ==> IsIdChar(r.value[k])
  {
    if markers == [] then None
    else
      var m := markers[0];
      if StartsWith(t, m) && |IdRun(t[|m|..])| >= 6 then Some(IdRun(t[|m|..]))
      else MatchMarkers(t, markers[1..])
  }

  /** `re.search`: the match at the leftmost position that has one. */
  function SearchFrom(s: string, start: nat): (r: Option<string>)
    requires start <= |s|
    ensures r.Some? ==> |r.value| >= 6
    decreases |s| - start
  {
    if MatchAt(s, start).Some? then MatchAt(s, start)
    else if start == |s| then None
    else SearchFrom(s, start + 1)
  }

  function RegexVideoId(url: string): (r: Option<string>)
    ensures r.Some? ==> |r.value| >= 6
  {
    SearchFrom(url, 0)
  }

  /** The search finds nothing exactly when no position matches, and otherwise the match at
      the leftmost position that has one. */
  lemma {:induction false} SearchFromSpec(s: string, start: nat)
    requires start <= |s|
    ensures SearchFrom(s, start).None? <==> forall j :: start <= j <= |s| ==> MatchAt(s, j).None?
    ensures SearchFrom(s, start).Some? ==>
      exists i :: start <= i <= |s| && MatchAt(s, i) == SearchFrom(s, start)
                  && forall j :: start <= j < i ==> MatchAt(s, j).None?
    decreases |s| - start
  {
    if MatchAt(s, start).None? && start < |s| {
      SearchFromSpec(s, start + 1);
      if SearchFrom(s, start).Some? {
        var i :| start + 1 <= i <= |s| && MatchAt(s, i) == SearchFrom(s, start)
                 && forall j :: start + 1 <= j < i ==> MatchAt(s, j).None?;
        assert forall j :: start <= j < i ==> MatchAt(s, j).None?;
      }
    }
  }

  /** A `/shorts/` path yields its id: the first marker does not occur at the start, the
      second does and is followed by the whole id. */
  lemma ShortsPath(id: string)
    requires |id| >= 6 && forall k :: 0 <= k < |id| ==> IsIdChar(id[k])
    ensures RegexVideoId("/shorts/" + id) == Some(id)
  {
    var s := "/shorts/" + id;
    IdRunWhole(id);
    assert s[0..] == s && s[8..] == id;
    assert s[..2][0] == '/' && "v="[0] == 'v';
    assert !StartsWith(s, IdMarkers[0]);
    assert s[..8] == IdMarkers[1];
    assert MatchMarkers(s, IdMarkers[1..]) == Some(id);
    assert MatchAt(s, 0) == Some(id);
  }

  lemma {:induction false} IdRunWhole(s: string)
    requires forall k :: 0 <= k < |s| ==> IsIdChar(s[k])
    ensures IdRun(s) == s
    decreases |s|
  {
    if s != [] {
      IdRunWhole(s[1..]);
    }
  }

  // ---------------------------------------------------------------------------------
  // youtube_video_id, thumbnails, titles

  /** The first non-blank `v` value of the query, as `parse_qs(...)["v"][0]`. */
  function QueryVideoId(q: seq<Pair>): (r: Option<string>)
    ensures r.Some? <==> NonBlank(ValuesOf(q, "v")) != []
    ensures r.Some? ==> r.value == NonBlank(ValuesOf(q, "v"))[0] && r.value != ""
  {
    var vs := NonBlank(ValuesOf(q, "v"));
    if vs == [] then None else assert vs[0] in vs; Some(vs[0])
  }

  /** `youtube_video_id(url)` for `u = urlparse(url)`. */
  function YoutubeVideoId(u: Url, url: string): (r: Option<string>)
    ensures r.Some? ==> r.value != ""
    ensures !IsYoutube(u) ==> r == None
    ensures Contains(Lower(u.netloc), "youtube.com") && QueryVideoId(u.query).Some?
            ==> r == QueryVideoId(u.query)
    ensures !Contains(Lower(u.netloc), "youtube.com") && Contains(Lower(u.netloc), "youtu.be")
            ==> r == (if ShortLinkId(u.path) == "" then None else Some(ShortLinkId(u.path)))
  {
    var host := Lower(u.netloc);
    if Contains(host, "youtube.com") then
      if QueryVideoId(u.query).Some? then QueryVideoId(u.query) else RegexVideoId(url)
    else if Contains(host, "youtu.be") then
      (if ShortLinkId(u.path) == "" then None else Some(ShortLinkId(u.path)))
    else None
  }

  /** The thumbnail URLs tried for a video, best first. */
  function ThumbnailCandidates(vid: string): (r: seq<string>)
    ensures |r| == 4
  {
    ["https://i.ytimg.com/vi/" + vid + "/maxresdefault.jpg",
     "https://i.ytimg.com/vi/" + vid + "/hqdefault.jpg",
     "https://i.ytimg.com/vi/" + vid + "/mqdefault.jpg",
     "https://i.ytimg.com/vi/" + vid + "/sddefault.jpg"]
  }

  /** The first candidate that answers a HEAD request; the `hqdefault` guess when none does. */
  function Thumbnail(vid: string, headOk: string -> bool): (r: string)
    ensures r in ThumbnailCandidates(vid)
    ensures exists k :: (0 <= k < 4 && ThumbnailCandidates(vid)[k] == r
              && (forall j :: 0 <= j < k ==> !headOk(ThumbnailCandidates(vid)[j]))
              && (headOk(r) || (k == 1 && forall j :: 0 <= j < 4 ==> !headOk(ThumbnailCandidates(vid)[j]))))
  {
    var cs := ThumbnailCandidates(vid);
    if headOk(cs[0]) then cs[0]
    else if headOk(cs[1]) then cs[1]
    else if headOk(cs[2]) then cs[2]
    else if headOk(cs[3]) then cs[3]
    else cs[1]
  }

  /** `youtube_thumbnail_from_id`: the candidates are probed in order. */
  method ProbeThumbnail(vid: string, headOk: string -> bool) returns (r: string)
    ensures r == Thumbnail(vid, headOk)
  {
    var cs := ThumbnailCandidates(vid);
    for k := 0 to |cs|
      invariant forall j :: 0 <= j < k ==> !headOk(cs[j])
    {
      if headOk(cs[k]) {
        return cs[k];
      }
    }
    return cs[1];
  }

  /** A text that is blank after stripping counts as missing. */
  function NonBlankStripped(t: Option<string>): (r: Option<string>)
    ensures r.Some? <==> t.Some? && Strip(t.value) != ""
    ensures r.Some? ==> r.value == Strip(t.value)
  {
    if t.Some? && Strip(t.value) != "" then Some(Strip(t.value)) else None
  }

  /** `youtube_oembed_title(url)`. */
  function OembedTitle(url: string, net: Net): Option<string> {
    NonBlankStripped(net.oembedTitle(url))
  }

  /** `twitch_vod_meta(url)`: `og:title` and `og:image` of the page, each stripped. */
  function TwitchMeta(url: string, net: Net): (r: (Option<string>, Option<string>))
    ensures net.page(url).None? ==> r == (None, None)
  {
    match net.page(url)
    case None => (None, None)
    case Some(html) =>
      (NonBlankStripped(net.metaContent(html, "og:title")),
       NonBlankStripped(net.metaContent(html, "og:image")))
  }

  /** `fetch_video_info(url)` for `u = urlparse(url)`. */
  function FetchVideoInfo(u: Url, url: string, net: Net): (r: Info)
    ensures r.error == None && r.fetchedAt == None
    ensures IsYoutube(u) ==>
      && r.title == OembedTitle(url, net)
      && (r.thumbnail.Some? <==> YoutubeVideoId(u, url).Some?)
      && (r.thumbnail.Some? ==> r.thumbnail.value in ThumbnailCandidates(YoutubeVideoId(u, url).value))
      && r.thumbnail == (if YoutubeVideoId(u, url).Some?
                         then Some(Thumbnail(YoutubeVideoId(u, url).value, net.headOk)) else None)
      && r.source == (if r.title.Some? then Some("youtube_oembed")
                      else if r.thumbnail.Some? then Some("youtube_thumb") else None)
    ensures !IsYoutube(u) && IsTwitch(u) ==>
      (r.title, r.thumbnail) == TwitchMeta(url, net) && r.source == Some("twitch_og")
    ensures !IsYoutube(u) && !IsTwitch(u) ==>
      r == Info(None, None, Some("unknown"), None, None)
  {
    if IsYoutube(u) then
      var vid := YoutubeVideoId(u, url);
      var thumb := if vid.Some? then Some(Thumbnail(vid.value, net.headOk)) else None;
      var title := OembedTitle(url, net);
      var source := if title.Some? then Some("youtube_oembed")
                    else if vid.Some? then Some("youtube_thumb") else None;
      Info(title, thumb, source, None, None)
    else if IsTwitch(u) then
      var (title, image) := TwitchMeta(url, net);
      Info(title, image, Some("twitch_og"), None, None)
    else
      Info(None, None, Some("unknown"), None, None)
  }

  /** A fetch for a cache key: `urlparse` raising is the one error that escapes. */
  function Fetch(url: string, parse: Parser, net: Net): (r: Result<Info>)
    ensures r.Failure? <==> parse(url).Unparseable?
    ensures r.Failure? ==> r.error == parse(url).message
    ensures r.Success? ==> r.value == FetchVideoInfo(parse(url).url, url, net)
  {
    match parse(url)
    case Unparseable(m) => Failure(m)
    case Parsed(u) => Success(FetchVideoInfo(u, url, net))
  }

  /** The record stored in the cache: the fetched info stamped with the time, or an error
      record carrying the exception message. */
  function Recorded(outcome: Result<Info>, stamp: string): (r: Info)
    ensures r.fetchedAt == Some(stamp)
    ensures outcome.Failure? ==> r == Info(None, None, Some("error"), Some(outcome.error), Some(stamp))
    ensures outcome.Success? ==> r.(fetchedAt := None) == outcome.value.(fetchedAt := None)
  {
    match outcome
    case Failure(e) => Info(None, None, Some("error"), Some(e), Some(stamp))
    case Success(info) => info.(fetchedAt := Some(stamp))
  }

  /** A YouTube fetch either finds something or records no source at all. */
  lemma YoutubeSourceTags(u: Url, url: string, net: Net)
    requires IsYoutube(u)
    ensures var r := FetchVideoInfo(u, url, net);
      (r.source == Some("youtube_oembed") <==> r.title.Some?)
      && (r.source == Some("youtube_thumb") <==> r.title.None? && r.thumbnail.Some?)
      && (r.source.None? <==> r.title.None? && r.thumbnail.None?)
  {
  }
}

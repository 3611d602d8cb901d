/** The victory-clip dialog (`components/landing/clip-viewer.tsx`): turning a
    Twitch clip link into the address of the embeddable player. The page's
    host name, read from `window.location` in the browser, is a parameter. */
module ClipViewer {
  import opened Optional
  import opened Strings

  /** The marker of `https://www.twitch.tv/<channel>/clip/<id>` links. */
  const PathMarker: string := "/clip/"

  /** The marker of `https://clips.twitch.tv/<id>` links. */
  const DomainMarker: string := "clips.twitch.tv/"

  /** `clipUrl.split("?")[0]`: the link up to its first `?`. */
  function CleanUrl(url: string): (clean: string)
    ensures CutAtChar(clean, url, '?')
  {
    SplitCharFirstPiece(url, '?');
    Split(url, "?")[0]
  }

  /** The clip id before it is cut at `/`: the text after the first path
      marker if there is one, else the text after the first domain marker if
      there is one, else the last `/`-separated segment (`pop()`, whose
      `|| ""` changes nothing since `split` always yields a string). */
  function RawClipId(clean: string): (raw: string)
    ensures forall c :: c in raw ==> c in clean
  {
    SplitChars(clean, PathMarker);
    SplitChars(clean, DomainMarker);
    SplitChars(clean, "/");
    if Contains(clean, PathMarker) then
      var parts := Split(clean, PathMarker);
      if |parts| > 1 then parts[1] else ""
    else if Contains(clean, DomainMarker) then
      var parts := Split(clean, DomainMarker);
      if |parts| > 1 then parts[1] else ""
    else
      Last(Split(clean, "/"))
  }

  /** The clip id: the raw id up to its first `/`. It never holds a `/` or
      a `?`, and every character of it comes from the link. */
  function ClipId(url: string): (id: string)
    ensures '/' !in id && '?' !in id
    ensures forall c :: c in id ==> c in url
  {
    var clean := CleanUrl(url);
    var raw := RawClipId(clean);
    SplitCharFirstPiece(raw, '/');
    SplitChars(raw, "/");
    SplitChars(url, "?");
    Split(raw, "/")[0]
  }

  /** `convertTwitchClipToEmbed(clipUrl)`: the empty string when no id can
      be extracted (the error branch), otherwise the player address for the
      id with the page's host as `parent`. */
  function ConvertClipToEmbed(url: string, host: string): (embed: string)
    ensures embed == "" <==> ClipId(url) == ""
    ensures embed != "" ==> embed == "https://clips.twitch.tv/embed?clip=" + ClipId(url) + "&parent=" + host
  {
    var id := ClipId(url);
    if id == "" then "" else "https://clips.twitch.tv/embed?clip=" + id + "&parent=" + host
  }

  /** The query is dropped before anything else: adding one to a link
      changes neither the id nor the embed address. */
  lemma QueryIgnored(u: string, q: string, host: string)
    requires '?' !in u
    ensures ClipId(u + "?" + q) == ClipId(u)
    ensures ConvertClipToEmbed(u + "?" + q, host) == ConvertClipToEmbed(u, host)
  {
    SplitAfterCharFree(u, '?', q);
    SplitCharFree(u, '?');
  }

  /** A link with the path marker: the id is the text after the first
      `/clip/`, up to the next `/`. */
  lemma PathClipId(url: string, i: nat)
    requires '?' !in url
    requires IndexOf(url, PathMarker) == Some(i)
    ensures ClipId(url) == Split(url[i + |PathMarker|..], "/")[0]
  {
    SplitCharFree(url, '?');
    assert CleanUrl(url) == url;
    SplitSecondPiece(url, PathMarker);
    CutAtPatternThenChar(url[i + |PathMarker|..], PathMarker, '/');
  }

  /** A link with only the domain marker, once: the id is the text after
      `clips.twitch.tv/`, up to the next `/`. */
  lemma DomainClipId(url: string, i: nat)
    requires '?' !in url
    requires Free(url, PathMarker)
    requires IndexOf(url, DomainMarker) == Some(i)
    requires Free(url[i + |DomainMarker|..], DomainMarker)
    ensures ClipId(url) == Split(url[i + |DomainMarker|..], "/")[0]
  {
    SplitCharFree(url, '?');
    assert CleanUrl(url) == url;
    SplitSecondPiece(url, DomainMarker);
    SplitFirstPiece(url[i + |DomainMarker|..], DomainMarker);
  }

  /** A link with neither marker: the id is its last `/`-separated segment. */
  lemma FallbackClipId(url: string)
    requires '?' !in url
    requires Free(url, PathMarker) && Free(url, DomainMarker)
    ensures ClipId(url) == Last(Split(url, "/"))
  {
    SplitCharFree(url, '?');
    assert CleanUrl(url) == url;
    var last := Last(Split(url, "/"));
    SplitLastFree(url, "/");
    FreeOfChar(last, '/');
    SplitCharFree(last, '/');
  }

  /** An empty link, or one that ends in `/` without a marker, has no id:
      the result is the empty string. */
  lemma NoIdGivesEmpty(u: string, host: string)
    requires '?' !in u
    requires Free(u + "/", PathMarker) && Free(u + "/", DomainMarker)
    ensures ConvertClipToEmbed("", host) == ""
    ensures ConvertClipToEmbed(u + "/", host) == ""
  {
    FallbackClipId(u + "/");
    SplitEndingInChar(u, '/');
  }

  /** In `https://clips.twitch.tv/<id>` with a `/`-free id, the slashes sit
      at 6, 7 and 23, and there is no `?`. */
  lemma DomainLinkSlashes(id: string)
    requires '/' !in id && '?' !in id
    ensures '?' !in "https://clips.twitch.tv/" + id
    ensures forall j :: 0 <= j < |"https://clips.twitch.tv/" + id| && ("https://clips.twitch.tv/" + id)[j] == '/'
              ==> j == 6 || j == 7 || j == 23
  {
    var a, b := "https:", "clips.twitch.tv";
    assert "https://clips.twitch.tv/" + id == a + "//" + b + "/" + id;
    assert '/' !in a && '/' !in b && '?' !in a && '?' !in b;
  }

  /** An occurrence of the path marker has a `/` at each end. */
  lemma PathMarkerSlashes(url: string, j: int)
    requires OccursAt(url, PathMarker, j)
    ensures url[j] == '/' && url[j + 5] == '/'
  {
    assert url[j..j + 6][0] == url[j] && url[j..j + 6][5] == url[j + 5];
  }

  /** An occurrence of the domain marker ends in a `/`. */
  lemma DomainMarkerSlash(url: string, j: int)
    requires OccursAt(url, DomainMarker, j)
    ensures url[j + 15] == '/'
  {
    assert url[j..j + 16][15] == url[j + 15];
  }

  /** `https://clips.twitch.tv/<id>` has no path marker. */
  lemma DomainLinkHasNoPathMarker(url: string, id: string)
    requires url == "https://clips.twitch.tv/" + id
    requires '/' !in id && '?' !in id
    ensures Free(url, PathMarker)
  {
    DomainLinkSlashes(id);
    forall j | 0 <= j <= |url|
      ensures !OccursAt(url, PathMarker, j)
    {
      if OccursAt(url, PathMarker, j) {
        PathMarkerSlashes(url, j);
      }
    }
  }

  /** The first domain marker of `https://clips.twitch.tv/<id>` is at 8. */
  lemma DomainLinkFirstMarker(url: string, id: string)
    requires url == "https://clips.twitch.tv/" + id
    requires '/' !in id && '?' !in id
    ensures IndexOf(url, DomainMarker) == Some(8)
  {
    DomainLinkSlashes(id);
    forall j | 0 <= j < 8
      ensures !OccursAt(url, DomainMarker, j)
    {
      if OccursAt(url, DomainMarker, j) {
        DomainMarkerSlash(url, j);
      }
    }
    assert url[8..24] == DomainMarker;
    IndexOfIsFirst(url, DomainMarker, 8);
  }

  /** `https://clips.twitch.tv/<id>` has no path marker and its first domain
      marker at 8. */
  lemma DomainLinkMarkers(id: string)
    requires '/' !in id && '?' !in id
    ensures Free("https://clips.twitch.tv/" + id, PathMarker)
    ensures IndexOf("https://clips.twitch.tv/" + id, DomainMarker) == Some(8)
  {
    DomainLinkHasNoPathMarker("https://clips.twitch.tv/" + id, id);
    DomainLinkFirstMarker("https://clips.twitch.tv/" + id, id);
  }

  /** `https://clips.twitch.tv/<id>`, with or without a query, yields `id`. */
  lemma DomainLinkRoundTrip(id: string, q: string, host: string)
    requires id != "" && '/' !in id && '?' !in id
    ensures ClipId("https://clips.twitch.tv/" + id) == id
    ensures ConvertClipToEmbed("https://clips.twitch.tv/" + id + "?" + q, host)
         == "https://clips.twitch.tv/embed?clip=" + id + "&parent=" + host
  {
    var url := "https://clips.twitch.tv/" + id;
    DomainLinkSlashes(id);
    DomainLinkMarkers(id);
    assert url[24..] == id;
    FreeOfMissingChar(id, DomainMarker, 15);
    DomainClipId(url, 8);
    SplitCharFree(id, '/');
    QueryIgnored(url, q, host);
  }

  /** In `https://www.twitch.tv/<channel>/clip/<id>` with a `/`-free channel,
      the slashes before the id sit at 6, 7, 21 and around `clip`, and
      there is no `?`. */
  lemma ChannelLinkSlashes(channel: string, id: string)
    requires '/' !in channel && '?' !in channel && '?' !in id
    ensures '?' !in "https://www.twitch.tv/" + channel + "/clip/" + id
    ensures var url, p := "https://www.twitch.tv/" + channel + "/clip/" + id, 22 + |channel|;
      forall j :: 0 <= j < p + 6 && url[j] == '/' ==> j == 6 || j == 7 || j == 21 || j == p || j == p + 5
  {
    assert '?' !in "https://www.twitch.tv/" && '?' !in "/clip/";
    ChannelLinkSlashPositions(channel, id);
  }

  lemma ChannelLinkSlashPositions(channel: string, id: string)
    requires '/' !in channel
    ensures var url, p := "https://www.twitch.tv/" + channel + "/clip/" + id, 22 + |channel|;
      forall j :: 0 <= j < p + 6 && url[j] == '/' ==> j == 6 || j == 7 || j == 21 || j == p || j == p + 5
  {
    var url, p := "https://www.twitch.tv/" + channel + "/clip/" + id, 22 + |channel|;
    var a, b := "https:", "www.twitch.tv";
    assert '/' !in a && '/' !in b;
    assert forall j :: 0 <= j < 6 ==> url[j] == a[j];
    assert forall j :: 8 <= j < 21 ==> url[j] == b[j - 8];
    assert forall j :: 22 <= j < p ==> url[j] == channel[j - 22];
    assert forall j :: p + 1 <= j < p + 5 ==> url[j] == "clip"[j - p - 1];
  }

  /** A marker at 21 whose middle four characters are a channel name of
      length four means that the channel is named `clip`. */
  lemma MarkerAfterChannel(url: string, channel: string)
    requires |channel| == 4 && |url| >= 27
    requires url[21..27] == PathMarker && url[22..26] == channel
    ensures channel == "clip"
  {
    forall k | 0 <= k < 4
      ensures channel[k] == "clip"[k]
    {
      assert url[22..26][k] == url[22 + k] == url[21..27][k + 1];
    }
  }

  /** No path marker starts before the end of the channel name in
      `https://www.twitch.tv/<channel>/clip/<id>`, unless the channel is `clip`. */
  lemma ChannelLinkNoEarlyMarker(url: string, channel: string, id: string)
    requires url == "https://www.twitch.tv/" + channel + "/clip/" + id
    requires '/' !in channel && '?' !in channel && channel != "clip" && '?' !in id
    ensures forall j :: 0 <= j < 22 + |channel| ==> !OccursAt(url, PathMarker, j)
  {
    ChannelLinkSlashes(channel, id);
    forall j | 0 <= j < 22 + |channel|
      ensures !OccursAt(url, PathMarker, j)
    {
      if OccursAt(url, PathMarker, j) {
        PathMarkerSlashes(url, j);
        if j == 21 && |channel| == 4 {
          MarkerAfterChannel(url, channel);
        }
      }
    }
  }

  /** The first path marker of `https://www.twitch.tv/<channel>/clip/<id>` is
      the one after the channel, unless the channel is named `clip`. */
  lemma ChannelLinkMarker(channel: string, id: string)
    requires '/' !in channel && '?' !in channel && channel != "clip" && '?' !in id
    ensures IndexOf("https://www.twitch.tv/" + channel + "/clip/" + id, PathMarker) == Some(22 + |channel|)
  {
    var url := "https://www.twitch.tv/" + channel + "/clip/" + id;
    var p := 22 + |channel|;
    ChannelLinkNoEarlyMarker(url, channel, id);
    assert url[p..p + 6] == PathMarker;
    IndexOfIsFirst(url, PathMarker, p);
  }

  /** `https://www.twitch.tv/<channel>/clip/<id>` yields `id`, for every
      channel name without `/` other than `clip` itself. */
  lemma ChannelLinkRoundTrip(channel: string, id: string, host: string)
    requires '/' !in channel && '?' !in channel && channel != "clip"
    requires id != "" && '/' !in id && '?' !in id
    ensures ClipId("https://www.twitch.tv/" + channel + "/clip/" + id) == id
    ensures ConvertClipToEmbed("https://www.twitch.tv/" + channel + "/clip/" + id, host)
         == "https://clips.twitch.tv/embed?clip=" + id + "&parent=" + host
  {
    var url := "https://www.twitch.tv/" + channel + "/clip/" + id;
    var p := 22 + |channel|;
    ChannelLinkSlashes(channel, id);
    ChannelLinkMarker(channel, id);
    assert url[p + 6..] == id;
    PathClipId(url, p);
    SplitCharFree(id, '/');
  }

  /** In `https://www.twitch.tv/clip/clip/<id>` the first path marker is the
      one around the channel name. */
  lemma ChannelNamedClipMarker(url: string, id: string)
    requires url == "https://www.twitch.tv/clip/clip/" + id
    requires '?' !in id
    ensures IndexOf(url, PathMarker) == Some(21)
  {
    assert url == "https://www.twitch.tv/" + "clip" + "/clip/" + id;
    ChannelLinkSlashes("clip", id);
    forall j | 0 <= j < 21
      ensures !OccursAt(url, PathMarker, j)
    {
      if OccursAt(url, PathMarker, j) {
        PathMarkerSlashes(url, j);
      }
    }
    assert url[21..27] == PathMarker;
    IndexOfIsFirst(url, PathMarker, 21);
  }

  /** A `clip/clip/<id>` link has no query when the id has none. */
  lemma ChannelNamedClipNoQuery(url: string, id: string)
    requires url == "https://www.twitch.tv/clip/clip/" + id
    requires '?' !in id
    ensures '?' !in url
  {
    ChannelLinkSlashes("clip", id);
    assert url == "https://www.twitch.tv/" + "clip" + "/clip/" + id;
  }

  /** After the first path marker of a `clip/clip/<id>` link comes the
      channel name, then a `/`. */
  lemma ChannelNamedClipRest(url: string, id: string)
    requires url == "https://www.twitch.tv/clip/clip/" + id
    ensures url[27..] == "clip" + ['/'] + id
  {
  }

  /** Text that starts `clip/` has `clip` as its first `/`-piece. */
  lemma ClipBeforeSlash(r: string, id: string)
    requires r == "clip" + ['/'] + id
    ensures Split(r, "/")[0] == "clip"
  {
    SplitAfterCharFree("clip", '/', id);
  }

  /** The id read from a `clip/clip/<id>` link is the channel name. */
  lemma ChannelNamedClipId(url: string, id: string)
    requires url == "https://www.twitch.tv/clip/clip/" + id
    requires '?' !in id
    ensures ClipId(url) == "clip"
  {
    ChannelNamedClipNoQuery(url, id);
    ChannelNamedClipMarker(url, id);
    PathClipId(url, 21);
    ChannelNamedClipRest(url, id);
    ClipBeforeSlash(url[27..], id);
  }

  /** A channel literally named `clip` is mistaken for the marker: its link
      yields the id `clip` rather than the clip's own id. */
  lemma ChannelNamedClip(id: string)
    requires '?' !in id
    ensures ClipId("https://www.twitch.tv/clip/clip/" + id) == "clip"
  {
    ChannelNamedClipId("https://www.twitch.tv/clip/clip/" + id, id);
  }
}

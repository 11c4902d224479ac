/**
 * service/YouTubeService.java: turns what the extractor reports into Videos
 * and VideoFormats. The extractor itself, its network access and the
 * asynchronous futures are outside the model: what it reports for a
 * request is an input here (StreamInfo, InfoItem).
 */
module YouTubeService {
  import opened Base
  import opened Text
  import opened Seqs
  import opened VideoFormats
  import opened Videos

  /** A stream descriptor as the extractor reports it (`VideoStream`). */
  datatype VideoStream = VideoStream(url: Option<string>, resolution: string, mimeType: Option<string>, formatName: Option<string>)

  /** An audio stream descriptor (`AudioStream`). */
  datatype AudioStream = AudioStream(url: Option<string>, mimeType: Option<string>)

  /** The parts of the extractor's `StreamInfo` that `getVideoDetails` reads; the upload date arrives already formatted. */
  datatype StreamInfo = StreamInfo(
    id: Option<string>,
    name: Option<string>,
    description: Option<string>,
    uploaderName: Option<string>,
    uploaderUrl: Option<string>,
    duration: int,
    viewCount: int,
    likeCount: int,
    uploadDate: Option<string>,
    thumbnails: seq<string>,
    videoStreams: seq<VideoStream>,
    videoOnlyStreams: seq<VideoStream>,
    audioStreams: seq<AudioStream>)

  /** A search result item (`StreamInfoItem`). */
  datatype StreamInfoItem = StreamInfoItem(
    url: Option<string>,
    name: Option<string>,
    uploaderName: Option<string>,
    uploaderUrl: Option<string>,
    duration: int,
    viewCount: int,
    thumbnails: seq<string>)

  /** A search page holds stream items and other items (channels, playlists). */
  datatype InfoItem = StreamItem(item: StreamInfoItem) | OtherItem

  /** The URL `getVideoDetails(videoId)` hands to the extractor: the watch prefix and the argument verbatim. */
  function ExtractorUrl(videoId: string): (u: string)
    ensures StartsWith(u, WATCH_PREFIX) && u[|WATCH_PREFIX|..] == videoId
    ensures |u| == |WATCH_PREFIX| + |videoId|
  {
    WATCH_PREFIX + videoId
  }

  // ---------------------------------------------------------------------
  // The format list of getVideoDetails

  /** A format from the first loop ("video streams with audio"): only `hasVideo` is set. */
  function FromVideoStream(s: VideoStream): (f: VideoFormat)
    ensures f.url == s.url && Quality(f) == Some(s.resolution) && f.mimeType == s.mimeType && VideoCodec(f) == s.formatName
    ensures IsVideoOnly(f) && !IsCombined(f)
    ensures f.(url := None, qualityLabel := None, mimeType := None, codec := None, hasVideo := false) == NewFormat()
  {
    var f := NewFormat().(url := s.url);
    var f := SetQuality(f, Some(s.resolution)).(mimeType := s.mimeType, hasVideo := true);
    SetVideoCodec(f, s.formatName)
  }

  /** A format from the second loop (video-only streams): `hasVideo` set, `hasAudio` cleared explicitly. */
  function FromVideoOnlyStream(s: VideoStream): (f: VideoFormat)
    ensures f.url == s.url && Quality(f) == Some(s.resolution) && f.mimeType == s.mimeType && VideoCodec(f) == s.formatName
    ensures IsVideoOnly(f)
    ensures f.(url := None, qualityLabel := None, mimeType := None, codec := None, hasVideo := false) == NewFormat()
  {
    var f := NewFormat().(url := s.url);
    var f := SetQuality(f, Some(s.resolution)).(mimeType := s.mimeType, hasVideo := true, hasAudio := false);
    SetVideoCodec(f, s.formatName)
  }

  /** A format from the third loop (audio streams): labelled "Audio Only", only `hasAudio` set. */
  function FromAudioStream(s: AudioStream): (f: VideoFormat)
    ensures f.url == s.url && Quality(f) == Some("Audio Only") && f.mimeType == s.mimeType && VideoCodec(f) == None
    ensures IsAudioOnly(f)
    ensures f.(url := None, qualityLabel := None, mimeType := None, hasAudio := false) == NewFormat()
  {
    var f := NewFormat().(url := s.url);
    SetQuality(f, Some("Audio Only")).(mimeType := s.mimeType, hasVideo := false, hasAudio := true)
  }

  /** The three loops of `getVideoDetails` as one list: video streams, then video-only streams, then audio streams. */
  function BuiltFormats(info: StreamInfo): (r: seq<VideoFormat>)
    ensures |r| == |info.videoStreams| + |info.videoOnlyStreams| + |info.audioStreams|
    ensures forall i :: 0 <= i < |r| ==> r[i].qualityLabel.Some? && !IsCombined(r[i])
  {
    seq(|info.videoStreams|, i requires 0 <= i < |info.videoStreams| => FromVideoStream(info.videoStreams[i]))
    + seq(|info.videoOnlyStreams|, i requires 0 <= i < |info.videoOnlyStreams| => FromVideoOnlyStream(info.videoOnlyStreams[i]))
    + seq(|info.audioStreams|, i requires 0 <= i < |info.audioStreams| => FromAudioStream(info.audioStreams[i]))
  }

  /** The three loops that fill the `formats` list in `getVideoDetails`. */
  method BuildFormats(info: StreamInfo) returns (formats: seq<VideoFormat>)
    ensures formats == BuiltFormats(info)
  {
    formats := [];
    var vs, vos, aus := info.videoStreams, info.videoOnlyStreams, info.audioStreams;
    var i := 0;
    while i < |vs|
      invariant 0 <= i <= |vs|
      invariant formats == seq(i, j requires 0 <= j < i => FromVideoStream(vs[j]))
    {
      formats := formats + [FromVideoStream(vs[i])];
      i := i + 1;
    }
    ghost var videoPart := formats;
    i := 0;
    while i < |vos|
      invariant 0 <= i <= |vos|
      invariant formats == videoPart + seq(i, j requires 0 <= j < i => FromVideoOnlyStream(vos[j]))
    {
      formats := formats + [FromVideoOnlyStream(vos[i])];
      i := i + 1;
    }
    ghost var streamPart := formats;
    i := 0;
    while i < |aus|
      invariant 0 <= i <= |aus|
      invariant formats == streamPart + seq(i, j requires 0 <= j < i => FromAudioStream(aus[j]))
    {
      formats := formats + [FromAudioStream(aus[i])];
      i := i + 1;
    }
  }

  /**
   * The built list holds every stream once, in group order and source order
   * within a group: video formats carry the stream's URL and resolution as
   * quality, audio formats carry the stream's URL and "Audio Only".
   */
  lemma BuiltFormatsLayout(info: StreamInfo)
    ensures var b, nv, no := BuiltFormats(info), |info.videoStreams|, |info.videoOnlyStreams|;
      && |b| == nv + no + |info.audioStreams|
      && (forall i :: 0 <= i < nv ==>
            b[i].url == info.videoStreams[i].url && Quality(b[i]) == Some(info.videoStreams[i].resolution) && b[i].hasVideo)
      && (forall i :: 0 <= i < no ==>
            b[nv + i].url == info.videoOnlyStreams[i].url && Quality(b[nv + i]) == Some(info.videoOnlyStreams[i].resolution) && b[nv + i].hasVideo)
      && (forall i :: 0 <= i < |info.audioStreams| ==>
            b[nv + no + i].url == info.audioStreams[i].url && Quality(b[nv + no + i]) == Some("Audio Only") && b[nv + no + i].hasAudio)
  {
  }

  /** Every built format has exactly one of `hasVideo` and `hasAudio`, so none is combined, and every label is set. */
  lemma BuiltFormatsOneFlag(info: StreamInfo)
    ensures forall f :: f in BuiltFormats(info) ==> f.hasVideo != f.hasAudio
    ensures forall f :: f in BuiltFormats(info) ==> !IsCombined(f) && (IsVideoOnly(f) || IsAudioOnly(f))
    ensures forall f :: f in BuiltFormats(info) ==> f.qualityLabel.Some?
  {
  }

  /** The first two loops build the same format from the same stream. */
  lemma VideoLoopsAgree(s: VideoStream)
    ensures FromVideoOnlyStream(s) == FromVideoStream(s)
  {
  }

  /** The first loop as its comment describes it: a muxed stream carries audio as well as video. */
  function FromVideoStreamIntended(s: VideoStream): (f: VideoFormat)
    ensures IsCombined(f) && f == FromVideoStream(s).(hasAudio := true)
  {
    FromVideoStream(s).(hasAudio := true)
  }

  /** The format list with the first loop marking muxed streams as carrying audio. */
  function BuiltFormatsIntended(info: StreamInfo): seq<VideoFormat>
  {
    seq(|info.videoStreams|, i requires 0 <= i < |info.videoStreams| => FromVideoStreamIntended(info.videoStreams[i]))
    + seq(|info.videoOnlyStreams|, i requires 0 <= i < |info.videoOnlyStreams| => FromVideoOnlyStream(info.videoOnlyStreams[i]))
    + seq(|info.audioStreams|, i requires 0 <= i < |info.audioStreams| => FromAudioStream(info.audioStreams[i]))
  }

  /** In that list exactly the formats of muxed streams are combined, and they come first. */
  lemma BuiltFormatsIntendedLayout(info: StreamInfo)
    ensures var b, nv := BuiltFormatsIntended(info), |info.videoStreams|;
      && |b| == nv + |info.videoOnlyStreams| + |info.audioStreams|
      && (forall i :: 0 <= i < nv ==>
            b[i] == FromVideoStreamIntended(info.videoStreams[i]) && IsCombined(b[i]) && Quality(b[i]) == Some(info.videoStreams[i].resolution))
      && (forall i :: nv <= i < |b| ==> !IsCombined(b[i]))
  {
  }

  /** Whether a video stream's resolution mentions "720". */
  function Is720(s: VideoStream): bool
  {
    Contains(s.resolution, "720")
  }

  /**
   * The `streamUrl` set by `getVideoDetails`: the URL of the first video
   * stream whose resolution contains "720", else of the first video
   * stream; unset (null) without video streams.
   */
  function BestStreamUrl(vs: seq<VideoStream>): (r: Option<string>)
    ensures vs == [] ==> r == None
    ensures FirstIndex(vs, Is720) >= 0 ==> r == vs[FirstIndex(vs, Is720)].url
    ensures vs != [] && (forall i :: 0 <= i < |vs| ==> !Is720(vs[i])) ==> r == vs[0].url
  {
    var k := FirstIndex(vs, Is720);
    if k >= 0 then vs[k].url
    else if vs != [] then vs[0].url
    else None
  }

  /**
   * `getVideoDetails(videoId)`: the URL handed to the extractor and the
   * Video built from what the extractor reports for it.
   */
  method GetVideoDetails(videoId: string, info: StreamInfo) returns (requestUrl: string, video: Video)
    ensures requestUrl == ExtractorUrl(videoId)
    ensures video.videoId == info.id && video.title == info.name && video.description == info.description
    ensures video.channelName == info.uploaderName && video.channelUrl == info.uploaderUrl
    ensures video.duration == Some(info.duration) && video.viewCount == info.viewCount && video.likes == info.likeCount
    ensures video.uploadDate == info.uploadDate
    ensures video.thumbnailUrl == (if info.thumbnails != [] then Some(info.thumbnails[0]) else None)
    ensures video.formats == Some(BuiltFormats(info))
    ensures video.streamUrl == BestStreamUrl(info.videoStreams)
    ensures video.durationText == None && video.channelId == None && !video.isLive
  {
    requestUrl := ExtractorUrl(videoId);
    video := NewVideo();
    video := video.(videoId := info.id, title := info.name, description := info.description);
    video := video.(channelName := info.uploaderName, channelUrl := info.uploaderUrl);
    video := video.(duration := Some(info.duration), viewCount := info.viewCount, likes := info.likeCount);
    if info.uploadDate.Some? {
      video := video.(uploadDate := info.uploadDate);
    }
    if info.thumbnails != [] {
      video := video.(thumbnailUrl := Some(info.thumbnails[0]));
    }
    var formats := BuildFormats(info);
    video := video.(formats := Some(formats));
    var k := FirstIndex(info.videoStreams, Is720);
    if k >= 0 {
      video := video.(streamUrl := info.videoStreams[k].url);
    } else if info.videoStreams != [] {
      video := video.(streamUrl := info.videoStreams[0].url);
    }
  }

  // ---------------------------------------------------------------------
  // Search results

  /** `url.substring(url.lastIndexOf("=") + 1)`: the part after the last '='. */
  function ExtractId(url: string): (id: string)
    ensures '=' !in id
    ensures '=' !in url ==> id == url
    ensures |id| <= |url| && url[|url| - |id|..] == id
    ensures '=' in url ==> |id| < |url| && url[|url| - |id| - 1] == '='
  {
    url[LastIndexOfChar(url, '=') + 1..]
  }

  /** Whatever precedes the last '=', the id is everything after it. */
  lemma ExtractIdAfterLastEquals(head: string, rest: string)
    requires '=' !in rest
    ensures ExtractId(head + "=" + rest) == rest
  {
    assert head + "=" + rest == head + ['='] + rest;
    LastIndexOfAppend(head, '=', rest);
  }

  /** The id comes back out of a watch URL built from it, provided it holds no '='. */
  lemma ExtractIdOfWatchUrl(id: string)
    requires '=' !in id
    ensures ExtractId(WATCH_PREFIX + id) == id
  {
    var head := WATCH_PREFIX[..|WATCH_PREFIX| - 1];
    assert WATCH_PREFIX == head + "=";
    ExtractIdAfterLastEquals(head, id);
  }

  /**
   * `convertStreamInfoItemToVideo`: null when the item has no URL (the
   * NullPointerException is caught there); otherwise a Video whose id is
   * the part of the URL after the last '=' and whose stream URL is the
   * watch URL of that id.
   */
  function ConvertItem(item: StreamInfoItem): (r: Option<Video>)
    ensures r.None? <==> item.url.None?
    ensures r.Some? ==> r.value.videoId == Some(ExtractId(item.url.value))
    ensures r.Some? ==> r.value.streamUrl == Some(YouTubeUrl(r.value))
    ensures r.Some? ==> r.value.title == item.name && r.value.viewCount == item.viewCount && r.value.duration == Some(item.duration)
  {
    match item.url
    case None => None
    case Some(url) =>
      var id := ExtractId(url);
      var v := NewVideo().(videoId := Some(id), title := item.name);
      var v := v.(channelName := item.uploaderName, channelUrl := item.uploaderUrl);
      var v := v.(duration := Some(item.duration), viewCount := item.viewCount);
      var v := if item.thumbnails != [] then v.(thumbnailUrl := Some(item.thumbnails[0])) else v;
      Some(v.(streamUrl := Some(WATCH_PREFIX + id)))
  }

  /** The id read back from a converted video's stream URL is the video's id. */
  lemma ConvertedStreamUrlRoundTrip(item: StreamInfoItem)
    requires ConvertItem(item).Some?
    ensures var v := ConvertItem(item).value; ExtractId(v.streamUrl.value) == v.videoId.value
  {
    ExtractIdOfWatchUrl(ExtractId(item.url.value));
  }

  /** What one item contributes to the result list. */
  function Contribution(it: InfoItem): seq<Video>
  {
    match it
    case StreamItem(s) => (match ConvertItem(s) case Some(v) => [v] case None => [])
    case OtherItem => []
  }

  /** The converted stream items, in source order. */
  function Converted(items: seq<InfoItem>): (vs: seq<Video>)
    ensures |vs| <= |items|
    ensures forall v :: v in vs ==> v.videoId.Some? && v.streamUrl == Some(YouTubeUrl(v))
  {
    if items == [] then [] else Converted(items[..|items| - 1]) + Contribution(items[|items| - 1])
  }

  /** Conversion goes item by item: the result for a concatenation is the concatenation of the results. */
  lemma {:induction false} ConvertedAppend(a: seq<InfoItem>, b: seq<InfoItem>)
    ensures Converted(a + b) == Converted(a) + Converted(b)
    decreases |b|
  {
    if b != [] {
      var b' := b[..|b| - 1];
      assert (a + b)[..|a + b| - 1] == a + b';
      ConvertedAppend(a, b');
    } else {
      assert a + b == a;
    }
  }

  /** Every result comes from a stream item with a URL, converted as `convertStreamInfoItemToVideo` does. */
  lemma {:induction false} ConvertedFromStreamItems(items: seq<InfoItem>)
    ensures forall v :: v in Converted(items) ==>
      exists i :: 0 <= i < |items| && items[i].StreamItem? && ConvertItem(items[i].item) == Some(v)
  {
    if items != [] {
      var init := items[..|items| - 1];
      ConvertedFromStreamItems(init);
      forall v | v in Converted(items)
        ensures exists i :: 0 <= i < |items| && items[i].StreamItem? && ConvertItem(items[i].item) == Some(v)
      {
        if v in Converted(init) {
          var i :| 0 <= i < |init| && init[i].StreamItem? && ConvertItem(init[i].item) == Some(v);
          assert items[i] == init[i];
        } else {
          assert v in Contribution(items[|items| - 1]);
        }
      }
    }
  }

  /** The first m elements of s (none when m <= 0, all of s when m >= |s|). */
  function Take<T>(s: seq<T>, m: int): (r: seq<T>)
    ensures |r| == (if m <= 0 then 0 else if m < |s| then m else |s|)
    ensures r == s[..|r|]
  {
    if m <= 0 then [] else if m < |s| then s[..m] else s
  }

  lemma ConvertedStep(items: seq<InfoItem>, i: nat)
    requires i < |items|
    ensures Converted(items[..i + 1]) == Converted(items[..i]) + Contribution(items[i])
  {
    assert items[..i + 1][..i] == items[..i];
  }

  /** Once the first i items have yielded enough videos, the rest of the page adds nothing to the result. */
  lemma TakeStops(items: seq<InfoItem>, i: nat, m: int)
    requires i <= |items|
    requires |Converted(items[..i])| == m || (m <= 0 && Converted(items[..i]) == [])
    ensures Take(Converted(items), m) == Converted(items[..i])
  {
    assert items == items[..i] + items[i..];
    ConvertedAppend(items[..i], items[i..]);
  }

  /**
   * The take-loop of `searchVideos`: at most `maxResults` converted stream
   * items, in source order; other items and items that fail to convert are
   * skipped.
   */
  method SearchVideos(items: seq<InfoItem>, maxResults: int) returns (videos: seq<Video>)
    ensures videos == Take(Converted(items), maxResults)
  {
    videos := [];
    var count := 0;
    var i := 0;
    while i < |items| && count < maxResults
      invariant 0 <= i <= |items|
      invariant count == |videos| && (count <= maxResults || count == 0)
      invariant videos == Converted(items[..i])
    {
      ConvertedStep(items, i);
      if items[i].StreamItem? {
        var video := ConvertItem(items[i].item);
        if video.Some? {
          videos := videos + [video.value];
          count := count + 1;
        }
      }
      i := i + 1;
    }
    if count >= maxResults {
      TakeStops(items, i, maxResults);
    } else {
      assert items[..i] == items;
    }
  }

  /** The search returns at most `maxResults` videos, none for `maxResults <= 0`, all of them from stream items. */
  lemma SearchBounds(items: seq<InfoItem>, maxResults: int)
    ensures |Take(Converted(items), maxResults)| <= (if maxResults <= 0 then 0 else maxResults)
    ensures maxResults <= 0 ==> Take(Converted(items), maxResults) == []
    ensures forall v :: v in Take(Converted(items), maxResults) ==>
      exists i :: 0 <= i < |items| && items[i].StreamItem? && ConvertItem(items[i].item) == Some(v)
  {
    ConvertedFromStreamItems(items);
    var t := Take(Converted(items), maxResults);
    assert forall v :: v in t ==> v in Converted(items);
  }

  // ---------------------------------------------------------------------
  // getStreamUrl

  /** The search loop of `getStreamUrl` stops at a combined format whose quality contains the request; a null quality throws. */
  predicate StopsStreamScan(f: VideoFormat, quality: string)
  {
    Quality(f).None? || (Contains(Quality(f).value, quality) && f.hasVideo && f.hasAudio)
  }

  function StreamStop(quality: string): VideoFormat -> bool
  {
    f => StopsStreamScan(f, quality)
  }

  /** The scan reaches position `k` and finds a null quality there. */
  predicate ScanThrowsAt(fs: seq<VideoFormat>, quality: string, k: int)
  {
    0 <= k < |fs| && Quality(fs[k]).None? && forall j :: 0 <= j < k ==> !StopsStreamScan(fs[j], quality)
  }

  /**
   * What `getStreamUrl` answers for the video `getVideoDetails` produced:
   * the URL of the first combined format whose quality contains the
   * request, else the first format's URL; the video's `streamUrl` without
   * formats.
   */
  function StreamUrlChoice(v: Video, quality: string): (r: Result<Option<string>>)
    ensures (v.formats.None? || v.formats.value == []) ==> r == Ok(v.streamUrl)
    ensures v.formats.Some? && v.formats.value != [] && r.Ok? ==> exists f :: f in v.formats.value && f.url == r.value
    ensures r.NullPointer? ==> exists f :: f in v.formats.value && f.qualityLabel.None?
    ensures r.NullPointer? ==> v.formats.Some? && exists k :: ScanThrowsAt(v.formats.value, quality, k)
  {
    if v.formats.None? || v.formats.value == [] then Ok(v.streamUrl)
    else
      var fs := v.formats.value;
      var k := FirstIndex(fs, StreamStop(quality));
      if k < 0 then Ok(fs[0].url)
      else if Quality(fs[k]).None? then
        assert forall j :: 0 <= j < k ==> !StreamStop(quality)(fs[j]);
        assert ScanThrowsAt(fs, quality, k);
        NullPointer
      else Ok(fs[k].url)
  }

  /** The read-only search loop of `getStreamUrl`. */
  method GetStreamUrl(v: Video, quality: string) returns (r: Result<Option<string>>)
    ensures r == StreamUrlChoice(v, quality)
  {
    if v.formats.Some? && v.formats.value != [] {
      var fs := v.formats.value;
      var i := 0;
      while i < |fs|
        invariant 0 <= i <= |fs|
        invariant forall j :: 0 <= j < i ==> !StreamStop(quality)(fs[j])
      {
        var q := Quality(fs[i]);
        if q.None? {
          return NullPointer;
        }
        if Contains(q.value, quality) && fs[i].hasVideo && fs[i].hasAudio {
          return Ok(fs[i].url);
        }
        i := i + 1;
      }
      return Ok(fs[0].url);
    }
    return Ok(v.streamUrl);
  }

  /** A matching combined format with no null quality before it gives its URL. */
  lemma StreamUrlFirstMatch(v: Video, quality: string, k: nat)
    requires v.formats.Some? && k < |v.formats.value|
    requires var f := v.formats.value[k]; Quality(f).Some? && Contains(Quality(f).value, quality) && IsCombined(f)
    requires forall j :: 0 <= j < k ==> !StopsStreamScan(v.formats.value[j], quality)
    ensures StreamUrlChoice(v, quality) == Ok(v.formats.value[k].url)
  {
    var fs := v.formats.value;
    assert StreamStop(quality)(fs[k]);
    assert forall j :: 0 <= j < k ==> !StreamStop(quality)(fs[j]);
  }

  /** A null quality met before any match throws at `format.getQuality().contains(quality)`. */
  lemma StreamUrlNullQuality(v: Video, quality: string, k: nat)
    requires v.formats.Some? && ScanThrowsAt(v.formats.value, quality, k)
    ensures StreamUrlChoice(v, quality) == NullPointer
  {
    var fs := v.formats.value;
    assert StreamStop(quality)(fs[k]);
    assert forall j :: 0 <= j < k ==> !StreamStop(quality)(fs[j]);
  }

  /** With every quality set and no combined match, the answer is the first format's URL. */
  lemma StreamUrlFallback(v: Video, quality: string)
    requires v.formats.Some? && v.formats.value != []
    requires forall j :: 0 <= j < |v.formats.value| ==> !StopsStreamScan(v.formats.value[j], quality)
    ensures StreamUrlChoice(v, quality) == Ok(v.formats.value[0].url)
  {
    var fs := v.formats.value;
    assert forall j :: 0 <= j < |fs| ==> !StreamStop(quality)(fs[j]);
  }

  /** On the Video `getVideoDetails` builds, the requested quality is never honoured: the first format's URL comes back. */
  lemma StreamUrlOfDetailsIgnoresQuality(v: Video, info: StreamInfo, quality: string)
    requires v.formats == Some(BuiltFormats(info)) && BuiltFormats(info) != []
    ensures StreamUrlChoice(v, quality) == Ok(BuiltFormats(info)[0].url)
  {
    BuiltFormatsOneFlag(info);
    StreamUrlFallback(v, quality);
  }
}

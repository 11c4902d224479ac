/**
 * ui/MainController.java: the rules behind the main window. The JavaFX
 * controls, the player and the asynchronous loading are outside the model;
 * what a control shows or what the service returns is an input here. The
 * playlist (an ObservableList and `currentPlaylistIndex`) is a class.
 */
module MainController {
  import opened Base
  import opened Text
  import opened Seqs
  import opened VideoFormats
  import opened Videos
  import opened YouTubeService

  // ---------------------------------------------------------------------
  // selectBestFormat

  /** A format's quality is set and contains the request. */
  predicate MatchesQuality(f: VideoFormat, q: string)
  {
    Quality(f).Some? && Contains(Quality(f).value, q)
  }

  function QualityMatch(q: string): VideoFormat -> bool
  {
    f => MatchesQuality(f, q)
  }

  function CombinedMatch(q: string): VideoFormat -> bool
  {
    f => IsCombined(f) && MatchesQuality(f, q)
  }

  /** The request with every 'p' removed (`preferredQuality.replace("p", "")`). */
  function QualityKey(quality: string): (k: string)
    ensures 'p' !in k
  {
    RemoveChar(quality, 'p')
  }

  /** A resolution written with a trailing 'p' loses exactly that 'p'. */
  lemma QualityKeyDropsSuffix(d: string)
    requires 'p' !in d
    ensures QualityKey(d + "p") == d
  {
    RemoveCharAppend(d, "p", 'p');
    RemoveCharSingle('p', 'p');
  }

  /** "720p" is matched as "720". */
  lemma QualityKeyExample()
    ensures QualityKey("720p") == "720"
  {
    QualityKeyDropsSuffix("720");
    assert "720" + "p" == "720p";
  }

  /**
   * `selectBestFormat(formats, preferredQuality)`: null for a missing or
   * empty list; otherwise among the combined formats the first one for
   * "Auto", else the first whose quality contains the request without its
   * 'p's, else the first combined one; the head of the list when none is
   * combined.
   */
  function SelectBestFormat(formats: Option<seq<VideoFormat>>, quality: string): (r: Option<VideoFormat>)
    ensures r.None? <==> formats.None? || formats.value == []
    ensures r.Some? ==> r.value in formats.value
  {
    if formats.None? || formats.value == [] then None
    else
      var fs := formats.value;
      var combined := Filter(fs, IsCombined);
      if combined != [] then
        if quality == "Auto" then Some(combined[0])
        else
          var k := FirstIndex(combined, QualityMatch(QualityKey(quality)));
          if k >= 0 then Some(combined[k]) else Some(combined[0])
      else Some(fs[0])
  }

  /**
   * The choice stated on the whole list: no combined format gives the head;
   * "Auto" gives the first combined format; another request gives the first
   * combined format whose quality contains the request without its 'p's,
   * or the first combined format when none does.
   */
  lemma SelectBestFormatChoice(fs: seq<VideoFormat>, quality: string)
    requires fs != []
    ensures var r, c, m := SelectBestFormat(Some(fs), quality), FirstIndex(fs, IsCombined), FirstIndex(fs, CombinedMatch(QualityKey(quality)));
      && (c < 0 ==> r == Some(fs[0]))
      && (c >= 0 && quality == "Auto" ==> r == Some(fs[c]))
      && (c >= 0 && quality != "Auto" && m >= 0 ==> r == Some(fs[m]))
      && (c >= 0 && quality != "Auto" && m < 0 ==> r == Some(fs[c]))
  {
    var key := QualityKey(quality);
    FilterHead(fs, IsCombined);
    assert forall x :: CombinedMatch(key)(x) == (IsCombined(x) && QualityMatch(key)(x));
    FilterThenFirst(fs, IsCombined, QualityMatch(key), CombinedMatch(key));
  }

  /** With no combined format in the list the request is irrelevant: the head is chosen. */
  lemma SelectWithoutCombined(fs: seq<VideoFormat>, quality: string)
    requires fs != [] && forall f :: f in fs ==> !IsCombined(f)
    ensures SelectBestFormat(Some(fs), quality) == Some(fs[0])
  {
    SelectBestFormatChoice(fs, quality);
  }

  /**
   * On any list `getVideoDetails` builds, `selectBestFormat` returns the
   * first format whatever quality is requested, since no built format is
   * combined.
   */
  lemma SelectOnBuiltFormats(info: StreamInfo, quality: string)
    ensures var fs := BuiltFormats(info);
      SelectBestFormat(Some(fs), quality) == (if fs == [] then None else Some(fs[0]))
  {
    BuiltFormatsOneFlag(info);
    if BuiltFormats(info) != [] {
      SelectWithoutCombined(BuiltFormats(info), quality);
    }
  }

  /** A 360p stream listed before a 720p one. */
  function TwoStreamInfo(): StreamInfo
  {
    StreamInfo(None, None, None, None, None, 0, 0, 0, None, [],
      [VideoStream(Some("u360"), "360p", None, None), VideoStream(Some("u720"), "720p", None, None)], [], [])
  }

  /** So asking for "720p" still plays the 360p stream. */
  lemma QualityIgnoredExample()
    ensures SelectBestFormat(Some(BuiltFormats(TwoStreamInfo())), "720p") == Some(FromVideoStream(VideoStream(Some("u360"), "360p", None, None)))
  {
    SelectOnBuiltFormats(TwoStreamInfo(), "720p");
    assert BuiltFormats(TwoStreamInfo())[0] == FromVideoStream(TwoStreamInfo().videoStreams[0]);
  }

  /**
   * With muxed streams marked as carrying audio, "Auto" plays the first
   * muxed stream, and another request plays the first muxed stream whose
   * resolution contains it without its 'p's.
   */
  lemma IntendedFormatsHonourQuality(info: StreamInfo, quality: string, k: nat)
    requires k < |info.videoStreams|
    requires quality == "Auto" ==> k == 0
    requires quality != "Auto" ==> Contains(info.videoStreams[k].resolution, QualityKey(quality))
    requires quality != "Auto" ==> forall j :: 0 <= j < k ==> !Contains(info.videoStreams[j].resolution, QualityKey(quality))
    ensures SelectBestFormat(Some(BuiltFormatsIntended(info)), quality) == Some(FromVideoStreamIntended(info.videoStreams[k]))
  {
    var fs := BuiltFormatsIntended(info);
    var nv := |info.videoStreams|;
    BuiltFormatsIntendedLayout(info);
    assert IsCombined(fs[0]);
    SelectBestFormatChoice(fs, quality);
    assert FirstIndex(fs, IsCombined) == 0;
    if quality != "Auto" {
      var key := QualityKey(quality);
      assert CombinedMatch(key)(fs[k]);
      assert forall j :: 0 <= j < k ==> !CombinedMatch(key)(fs[j]);
    }
  }

  // ---------------------------------------------------------------------
  // loadVideoDetails

  /** The argument `loadVideoDetails(videoId)` passes to `getVideoDetails`: already a full watch URL. */
  function DetailsArgument(videoId: string): string
  {
    WATCH_PREFIX + videoId
  }

  /** The extractor is therefore asked for a URL that carries the watch prefix twice. */
  lemma DetailsUrlDoubled(videoId: string)
    ensures ExtractorUrl(DetailsArgument(videoId)) == WATCH_PREFIX + WATCH_PREFIX + videoId
    ensures ExtractorUrl(DetailsArgument(videoId)) != WATCH_PREFIX + videoId
  {
    assert |ExtractorUrl(DetailsArgument(videoId))| == |WATCH_PREFIX + videoId| + |WATCH_PREFIX|;
  }

  /** The argument `getVideoDetails` expects: the bare id. */
  function DetailsArgumentIntended(videoId: string): (a: string)
    ensures ExtractorUrl(a) == WATCH_PREFIX + videoId
  {
    videoId
  }

  /** With the bare id, the extractor gets the video's watch URL, from which the id reads back. */
  lemma DetailsUrlIntended(v: Video)
    requires v.videoId.Some? && '=' !in v.videoId.value
    ensures ExtractorUrl(DetailsArgumentIntended(v.videoId.value)) == YouTubeUrl(v)
    ensures ExtractId(ExtractorUrl(DetailsArgumentIntended(v.videoId.value))) == v.videoId.value
  {
    ExtractIdOfWatchUrl(v.videoId.value);
  }

  // ---------------------------------------------------------------------
  // formatDuration and formatViewCount

  /**
   * `formatDuration(seconds)` for the whole seconds the cast to `long`
   * leaves: "00:00" up to zero, else "HH:MM:SS" from one hour on and "MM:SS"
   * below, every field padded to two digits.
   */
  function FormatDuration(seconds: int): (r: string)
    ensures seconds <= 0 ==> r == "00:00"
    ensures ClockValue(r) == Some(if seconds <= 0 then 0 else seconds)
  {
    if seconds <= 0 then
      ZeroClockValue();
      "00:00"
    else
      PaddedDurationValue(seconds);
      PaddedClock(seconds / 3600, (seconds % 3600) / 60, seconds % 60)
  }

  lemma ZeroClockValue()
    ensures ClockValue("00:00") == Some(0)
  {
    assert Pad2(0) == "00";
    assert PaddedClock(0, 0, 0) == "00:00";
    PaddedClockValue(0, 0, 0);
  }

  /** The padded clock of a positive duration reads back as that duration. */
  lemma PaddedDurationValue(seconds: int)
    requires seconds > 0
    ensures ClockValue(PaddedClock(seconds / 3600, (seconds % 3600) / 60, seconds % 60)) == Some(seconds)
  {
    var h, m, s := seconds / 3600, (seconds % 3600) / 60, seconds % 60;
    HoursMinutesSeconds(seconds);
    PaddedClockValue(h, m, s);
    if h == 0 {
      assert 60 * m + s == seconds;
    }
  }

  /** The `%02d:%02d:%02d` and `%02d:%02d` layouts. */
  function PaddedClock(hours: int, minutes: int, secs: int): string
  {
    if hours > 0 then Pad2(hours) + ":" + Pad2(minutes) + ":" + Pad2(secs)
    else Pad2(minutes) + ":" + Pad2(secs)
  }

  /** Hours, minutes and seconds of a non-negative count recombine to it, minutes and seconds below 60. */
  lemma HoursMinutesSeconds(t: int)
    requires t >= 0
    ensures 3600 * (t / 3600) + 60 * ((t % 3600) / 60) + t % 60 == t
    ensures 0 <= (t % 3600) / 60 < 60 && 0 <= t % 60 < 60
  {
  }

  lemma ZeroIsPaddedClock()
    ensures FormatDuration(0) == PaddedClock(0, 0, 0)
  {
    assert Pad2(0) == "00";
  }

  lemma PaddedClockValue(h: nat, m: nat, s: nat)
    ensures ClockValue(PaddedClock(h, m, s)) == Some(if h > 0 then 3600 * h + 60 * m + s else 60 * m + s)
  {
    Pad2RoundTrip(h);
    Pad2RoundTrip(m);
    Pad2RoundTrip(s);
    if h > 0 {
      ClockValueOfThree(Pad2(h), Pad2(m), Pad2(s), h, m, s);
    } else {
      ClockValueOfTwo(Pad2(m), Pad2(s), m, s);
    }
  }

  /** The facts the layout lemmas state about a list of clock fields. */
  predicate PaddedFields(parts: seq<string>)
  {
    && (forall i :: 0 <= i < |parts| ==> |parts[i]| >= 2 && AllDigits(parts[i]))
    && (forall i :: 0 <= i < |parts| && |parts| - 2 <= i ==> |parts[i]| == 2 && ParseNat(parts[i]).Some? && ParseNat(parts[i]).value < 60)
  }

  lemma PaddedClockSplit(h: nat, m: nat, s: nat)
    ensures Split(PaddedClock(h, m, s), ':') == if h > 0 then [Pad2(h), Pad2(m), Pad2(s)] else [Pad2(m), Pad2(s)]
  {
    Pad2Field(h);
    Pad2Field(m);
    Pad2Field(s);
    if h > 0 {
      SplitThree(Pad2(h), Pad2(m), Pad2(s));
    } else {
      assert PaddedClock(h, m, s) == Pad2(m) + [':'] + Pad2(s);
      SplitAt(Pad2(m), ':', Pad2(s));
      SplitWhole(Pad2(s), ':');
    }
  }

  lemma PaddedClockLayout(h: nat, m: nat, s: nat)
    requires m < 60 && s < 60
    ensures var parts := Split(PaddedClock(h, m, s), ':');
      |parts| == (if h > 0 then 3 else 2) && PaddedFields(parts)
  {
    PaddedClockSplit(h, m, s);
    Pad2Field(m);
    Pad2Field(s);
    if h > 0 {
      Pad2Field(h);
      PaddedFieldsOfThree(Pad2(h), Pad2(m), Pad2(s));
    } else {
      PaddedFieldsOfTwo(Pad2(m), Pad2(s));
    }
  }

  lemma PaddedFieldsOfThree(a: string, b: string, c: string)
    requires |a| >= 2 && AllDigits(a) && SixtyField(b) && SixtyField(c)
    ensures PaddedFields([a, b, c])
  {
    var parts := [a, b, c];
    assert parts[0] == a && parts[1] == b && parts[2] == c;
  }

  lemma PaddedFieldsOfTwo(b: string, c: string)
    requires SixtyField(b) && SixtyField(c)
    ensures PaddedFields([b, c])
  {
    var parts := [b, c];
    assert parts[0] == b && parts[1] == c;
  }

  /**
   * Two fields below one hour and three from one hour on; every field has at
   * least two digits, and the minute and second fields exactly two, each
   * below 60.
   */
  lemma FormatDurationLayout(seconds: int)
    ensures var parts := Split(FormatDuration(seconds), ':');
      |parts| == (if seconds >= 3600 then 3 else 2) && PaddedFields(parts)
  {
    if seconds <= 0 {
      ZeroIsPaddedClock();
      PaddedClockLayout(0, 0, 0);
    } else {
      HoursMinutesSeconds(seconds);
      PaddedClockLayout(seconds / 3600, (seconds % 3600) / 60, seconds % 60);
    }
  }

  /** A `%02d` field of a non-negative number: digits only, at least two of them, exactly two below 100. */
  lemma Pad2Field(n: int)
    requires n >= 0
    ensures |Pad2(n)| >= 2 && AllDigits(Pad2(n)) && ':' !in Pad2(n)
    ensures n < 100 ==> |Pad2(n)| == 2
    ensures ParseNat(Pad2(n)) == Some(n)
  {
    Pad2RoundTrip(n);
  }

  /** 125 seconds are shown as "02:05". */
  lemma FormatDurationExample()
    ensures FormatDuration(125) == "02:05"
  {
    assert 125 / 3600 == 0 && (125 % 3600) / 60 == 2 && 125 % 60 == 5;
    SingleDigit(2);
    SingleDigit(5);
    assert DigitChar(2) == '2' && DigitChar(5) == '5';
  }

  /** `formatViewCount(viewCount)`: the thresholds tested from the top down, rendering as `Video.getFormattedViewCount` does. */
  function FormatViewCount(count: int): (r: Shown)
    ensures r == FormattedViewCount(count)
  {
    if count >= 1000000000 then OneDecimal(count, 1000000000, "B")
    else if count >= 1000000 then OneDecimal(count, 1000000, "M")
    else if count >= 1000 then OneDecimal(count, 1000, "K")
    else Plain(IntToString(count))
  }

  // ---------------------------------------------------------------------
  // updateVideoInfo

  /** The texts `updateVideoInfo` puts into the five labels. */
  datatype InfoLabels = InfoLabels(title: string, channel: string, views: Shown, uploadDate: string, description: string)

  const DESCRIPTION_LIMIT: nat := 500

  function ShownDescription(d: Option<string>): (r: string)
    ensures d.None? || d.value == [] ==> r == []
    ensures d.Some? && |d.value| <= DESCRIPTION_LIMIT ==> r == d.value
    ensures d.Some? && |d.value| > DESCRIPTION_LIMIT ==>
      |r| == DESCRIPTION_LIMIT + 3 && r[..DESCRIPTION_LIMIT] == d.value[..DESCRIPTION_LIMIT] && r[DESCRIPTION_LIMIT..] == "..."
  {
    if d.Some? && d.value != [] then
      (if |d.value| > DESCRIPTION_LIMIT then d.value[..DESCRIPTION_LIMIT] + "..." else d.value)
    else ""
  }

  /** `updateVideoInfo(video)`. */
  function VideoInfoLabels(v: Video): (l: InfoLabels)
    ensures v.title.None? ==> l.title == "Unknown Title"
    ensures v.title.Some? ==> l.title == v.title.value
    ensures v.channelName.None? ==> l.channel == "Unknown Channel"
    ensures v.channelName.Some? ==> l.channel == v.channelName.value
    ensures IsBlank(l.views) <==> v.viewCount <= 0
    ensures v.viewCount > 0 ==> l.views == Append(FormattedViewCount(v.viewCount), " views")
    ensures l.uploadDate == (if v.uploadDate.Some? then v.uploadDate.value else "")
    ensures l.description == ShownDescription(v.description) && |l.description| <= DESCRIPTION_LIMIT + 3
  {
    var views := if v.viewCount > 0 then Append(FormatViewCount(v.viewCount), " views") else Plain("");
    assert v.viewCount > 0 && views.Plain? ==> views.text == IntToString(v.viewCount) + " views";
    InfoLabels(
      if v.title.Some? then v.title.value else "Unknown Title",
      if v.channelName.Some? then v.channelName.value else "Unknown Channel",
      views,
      if v.uploadDate.Some? then v.uploadDate.value else "",
      ShownDescription(v.description))
  }

  // ---------------------------------------------------------------------
  // The playlist

  /** No two entries are equal in the sense of `Video.equals`. */
  predicate DistinctIds(s: seq<Video>)
  {
    forall a, b :: 0 <= a < |s| && 0 <= b < |s| && Equals(s[a], s[b]) ==> a == b
  }

  function SameAs(v: Video): Video -> bool
  {
    x => Equals(x, v)
  }

  /** `playlist.indexOf(v)`: the first position of an entry equal to v, or -1. */
  function PositionOf(s: seq<Video>, v: Video): (k: int)
    ensures -1 <= k < |s|
    ensures k >= 0 ==> Equals(s[k], v) && forall j :: 0 <= j < k ==> !Equals(s[j], v)
    ensures k < 0 <==> forall j :: 0 <= j < |s| ==> !Equals(s[j], v)
  {
    FirstIndex(s, SameAs(v))
  }

  /**
   * In a list without duplicates the position of an entry is where it
   * stands: playing the entry `previousVideo` or `nextVideo` returns leaves
   * the index where the step put it.
   */
  lemma PositionOfEntry(s: seq<Video>, k: nat)
    requires DistinctIds(s) && k < |s|
    ensures PositionOf(s, s[k]) == k
  {
    EqualsIsIdEquivalence(s[k], s[k], s[k]);
    var p := PositionOf(s, s[k]);
    assert Equals(s[p], s[k]);
  }

  /** Appending a video equal to no entry keeps the entries distinct. */
  lemma AppendKeepsDistinct(s: seq<Video>, v: Video)
    requires DistinctIds(s) && PositionOf(s, v) < 0
    ensures DistinctIds(s + [v])
  {
    var t := s + [v];
    assert forall j :: 0 <= j < |s| ==> t[j] == s[j];
    assert t[|s|] == v;
  }

  /** The entries at i and j trade places; every other entry stays where it is. */
  function Swap(s: seq<Video>, i: nat, j: nat): (t: seq<Video>)
    requires i < |s| && j < |s|
    ensures |t| == |s| && t[i] == s[j] && t[j] == s[i]
    ensures forall k :: 0 <= k < |s| && k != i && k != j ==> t[k] == s[k]
  {
    s[i := s[j]][j := s[i]]
  }

  /** Swapping two entries keeps the same entries and keeps them distinct. */
  lemma SwapPermutes(s: seq<Video>, i: nat, j: nat)
    requires i < |s| && j < |s|
    ensures multiset(Swap(s, i, j)) == multiset(s)
    ensures DistinctIds(s) ==> DistinctIds(Swap(s, i, j))
  {
    SwapSameEntries(s, i, j);
    if DistinctIds(s) {
      SwapKeepsDistinct(s, i, j);
    }
  }

  lemma SwapSameEntries(s: seq<Video>, i: nat, j: nat)
    requires i < |s| && j < |s|
    ensures multiset(Swap(s, i, j)) == multiset(s)
  {
    if i != j {
      var u := s[i := s[j]];
      assert multiset(u) == multiset(s) - multiset{s[i]} + multiset{s[j]};
      assert u[j] == s[j];
      assert multiset(u[j := s[i]]) == multiset(u) - multiset{s[j]} + multiset{s[i]};
    }
  }

  lemma SwapKeepsDistinct(s: seq<Video>, i: nat, j: nat)
    requires i < |s| && j < |s| && DistinctIds(s)
    ensures DistinctIds(Swap(s, i, j))
  {
    var t := Swap(s, i, j);
    ghost var moved := (a: int) => if a == i then j else if a == j then i else a;
    assert forall a :: 0 <= a < |s| ==> t[a] == s[moved(a)];
    forall a, b | 0 <= a < |t| && 0 <= b < |t| && Equals(t[a], t[b])
      ensures a == b
    {
      assert Equals(s[moved(a)], s[moved(b)]);
    }
  }

  /** `rnd.nextInt(n)` for the step that fills position n - 1, taken from the given draws. */
  function Draw(draws: seq<nat>, n: nat): (j: nat)
    requires n >= 1
    ensures j < n
  {
    (if n - 1 < |draws| then draws[n - 1] else 0) % n
  }

  /**
   * `Collections.shuffle`: for n from the size down to 2, the entry at
   * position n - 1 is swapped with the one at a drawn position below n. The
   * random draws are a parameter.
   */
  function ShuffleDown(s: seq<Video>, draws: seq<nat>, n: nat): (t: seq<Video>)
    requires n <= |s|
    ensures |t| == |s|
    ensures forall k :: n <= k < |s| ==> t[k] == s[k]
    decreases n
  {
    if n <= 1 then s else ShuffleDown(Swap(s, n - 1, Draw(draws, n)), draws, n - 1)
  }

  /** The whole list shuffled: a permutation of the entries that keeps them distinct. */
  function Shuffled(s: seq<Video>, draws: seq<nat>): (t: seq<Video>)
    ensures |t| == |s|
    ensures multiset(t) == multiset(s)
    ensures DistinctIds(s) ==> DistinctIds(t)
  {
    ShuffleDownPermutes(s, draws, |s|);
    ShuffleDown(s, draws, |s|)
  }

  /** A shuffle yields a permutation of the entries and keeps them distinct. */
  lemma {:induction false} ShuffleDownPermutes(s: seq<Video>, draws: seq<nat>, n: nat)
    requires n <= |s|
    ensures multiset(ShuffleDown(s, draws, n)) == multiset(s)
    ensures DistinctIds(s) ==> DistinctIds(ShuffleDown(s, draws, n))
    decreases n
  {
    if n > 1 {
      var s' := Swap(s, n - 1, Draw(draws, n));
      SwapPermutes(s, n - 1, Draw(draws, n));
      ShuffleDownPermutes(s', draws, n - 1);
    }
  }

  /** The playlist: its entries and `currentPlaylistIndex`. */
  class Playlist {
    var entries: seq<Video>
    var index: int

    /** No two entries are equal by id, and the index is -1 or a position. */
    predicate Valid()
      reads this
    {
      DistinctIds(entries) && -1 <= index < |entries|
    }

    /** The playlist as `initialize` sets it up: empty, index -1. */
    constructor()
      ensures Valid() && entries == [] && index == -1
    {
      entries := [];
      index := -1;
    }

    /** `clearPlaylist()`. */
    method Clear()
      modifies this
      ensures Valid() && entries == [] && index == -1
    {
      entries := [];
      index := -1;
    }

    /** `previousVideo()`: steps back when the index is positive and returns the entry to play. */
    method Previous() returns (play: Option<Video>)
      requires Valid()
      modifies this
      ensures Valid() && entries == old(entries)
      ensures old(index) > 0 ==> index == old(index) - 1 && play == Some(entries[index])
      ensures old(index) <= 0 ==> index == old(index) && play == None
    {
      play := None;
      if index > 0 {
        index := index - 1;
        play := Some(entries[index]);
      }
    }

    /** `nextVideo()`: steps forward when the index is a position before the last and returns the entry to play. */
    method Next() returns (play: Option<Video>)
      requires Valid()
      modifies this
      ensures Valid() && entries == old(entries)
      ensures 0 <= old(index) < |entries| - 1 ==> index == old(index) + 1 && play == Some(entries[index])
      ensures !(0 <= old(index) < |entries| - 1) ==> index == old(index) && play == None
    {
      play := None;
      if index >= 0 && index < |entries| - 1 {
        index := index + 1;
        play := Some(entries[index]);
      }
    }

    /** Playback of v started: v is appended when absent and the index is set to v's position. */
    method Started(v: Video)
      requires Valid()
      modifies this
      ensures Valid()
      ensures PositionOf(old(entries), v) < 0 ==> entries == old(entries) + [v] && index == |entries| - 1
      ensures PositionOf(old(entries), v) >= 0 ==> entries == old(entries) && index == PositionOf(entries, v)
      ensures 0 <= index && Equals(entries[index], v)
    {
      if PositionOf(entries, v) < 0 {
        AppendKeepsDistinct(entries, v);
        entries := entries + [v];
        index := |entries| - 1;
      } else {
        index := PositionOf(entries, v);
      }
    }

    /**
     * The callback of `playVideo(video)` once the details have loaded: the
     * format chosen by `selectBestFormat`; when there is one, the playlist
     * takes the video as in `Started`, otherwise nothing changes.
     */
    method PlaybackLoaded(v: Video, formats: Option<seq<VideoFormat>>, quality: string) returns (chosen: Option<VideoFormat>)
      requires Valid()
      modifies this
      ensures Valid() && chosen == SelectBestFormat(formats, quality)
      ensures chosen.None? ==> entries == old(entries) && index == old(index)
      ensures chosen.Some? ==> 0 <= index && Equals(entries[index], v)
      ensures chosen.Some? && PositionOf(old(entries), v) >= 0 ==> entries == old(entries)
      ensures chosen.Some? && PositionOf(old(entries), v) < 0 ==> entries == old(entries) + [v]
    {
      chosen := SelectBestFormat(formats, quality);
      if chosen.Some? {
        Started(v);
      }
    }

    /** "Add to Playlist": the selected video is appended when there is one and it is absent; the index stays. */
    method AddSelected(selected: Option<Video>)
      requires Valid()
      modifies this
      ensures Valid() && index == old(index)
      ensures selected.Some? && PositionOf(old(entries), selected.value) < 0 ==> entries == old(entries) + [selected.value]
      ensures selected.None? || PositionOf(old(entries), selected.value) >= 0 ==> entries == old(entries)
    {
      if selected.Some? && PositionOf(entries, selected.value) < 0 {
        AppendKeepsDistinct(entries, selected.value);
        entries := entries + [selected.value];
      }
    }

    /** A double click on a playlist entry: the index moves to the selected video. */
    method SelectEntry(selected: Option<Video>)
      requires Valid()
      modifies this
      ensures Valid() && entries == old(entries)
      ensures selected.Some? ==> index == PositionOf(entries, selected.value)
      ensures selected.None? ==> index == old(index)
    {
      if selected.Some? {
        index := PositionOf(entries, selected.value);
      }
    }

    /** `shufflePlaylist()`: a non-empty playlist is permuted; the index is left as it was. */
    method Shuffle(draws: seq<nat>)
      requires Valid()
      modifies this
      ensures Valid() && index == old(index)
      ensures multiset(entries) == multiset(old(entries))
      ensures entries == Shuffled(old(entries), draws)
    {
      if entries != [] {
        entries := Shuffled(entries, draws);
      }
    }
  }
}

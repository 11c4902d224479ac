/**
 * ui/BrowseViewController.java: the browse screen. Its content is
 * generated: a fixed table sends each category to a list of titled groups,
 * and every group is filled with numbered sample videos. The view counts,
 * the info line under a card and the search-box guard are modelled too.
 */
module BrowseView {
  import opened Base
  import opened Text
  import opened Videos
  import opened VideoGroups

  /** The five categories with their own groups. */
  predicate KnownCategory(category: string)
  {
    category == "home" || category == "trending" || category == "subscriptions"
    || category == "library" || category == "history"
  }

  /** The switch of `loadVideoSectionsForCategory`: each group's title and size, in display order. */
  function CategoryTable(category: string): (t: seq<(string, int)>)
    ensures !KnownCategory(category) <==> t == [("Content", 10)]
    ensures 1 <= |t| <= 3
    ensures forall k :: 0 <= k < |t| ==> 0 < t[k].1 < INT_MAX
  {
    match category
    case "home" => [("Recommended", 20), ("Recently Uploaded", 15), ("Popular Today", 12)]
    case "trending" => [("Trending Now", 25), ("Music", 15), ("Gaming", 15)]
    case "subscriptions" => [("Latest Uploads", 20), ("Recommended from Subscriptions", 15)]
    case "library" => [("Watch Later", 10), ("Liked Videos", 8), ("My Playlists", 5)]
    case "history" => [("Recently Watched", 20), ("Watch Again", 15)]
    case _ => [("Content", 10)]
  }

  /**
   * The number of groups per category; the sidebar's "watch_later" and
   * "liked_videos" have no case of their own and get the single default group.
   */
  lemma CategoryGroupCounts()
    ensures |CategoryTable("home")| == 3 && |CategoryTable("trending")| == 3
    ensures |CategoryTable("subscriptions")| == 2 && |CategoryTable("library")| == 3
    ensures |CategoryTable("history")| == 2
    ensures CategoryTable("watch_later") == [("Content", 10)]
    ensures CategoryTable("liked_videos") == [("Content", 10)]
    ensures CategoryTable("search") == [("Content", 10)]
  {
    assert !KnownCategory("watch_later") && !KnownCategory("liked_videos") && !KnownCategory("search");
  }

  const THUMBNAIL_PREFIX: string := "https://img.youtube.com/vi/sample"
  const THUMBNAIL_SUFFIX: string := "/maxresdefault.jpg"

  /**
   * The i-th video of `createSampleVideoGroup(title, n)`. The view count is
   * `1000000L + i * 50000`, whose product is computed in 32-bit `int`.
   */
  function SampleVideo(title: string, i: int): (v: Video)
    requires i >= 1
    ensures v.videoId == None && v.duration == None && v.formats == None && v.streamUrl == None
  {
    NewVideo().(
      title := Some(title + " Video " + IntToString(i)),
      channelName := Some("Sample Channel " + IntToString(i % 5 + 1)),
      durationText := Some(IntToString(5 + i % 10) + ":" + Pad2(i % 60)),
      viewCount := 1000000 + Wrap32(i * 50000),
      thumbnailUrl := Some(THUMBNAIL_PREFIX + IntToString(i) + THUMBNAIL_SUFFIX))
  }

  /** Videos 1..n of a sample group, in order. */
  function SampleVideos(title: string, n: nat): (vs: seq<Video>)
    ensures |vs| == n
    ensures forall k :: 0 <= k < n ==> vs[k] == SampleVideo(title, k + 1)
  {
    seq(n, k requires 0 <= k < n => SampleVideo(title, k + 1))
  }

  /** Different positions in one group give different titles. */
  lemma SampleTitlesDistinct(title: string, i: int, j: int)
    requires i >= 1 && j >= 1
    requires SampleVideo(title, i).title == SampleVideo(title, j).title
    ensures i == j
  {
    var p := title + " Video ";
    assert (p + NatToString(i))[|p|..] == NatToString(i);
    assert (p + NatToString(j))[|p|..] == NatToString(j);
    NatToStringInjective(i, j);
  }

  /** The channel is "Sample Channel k" for a single digit k in 1..5. */
  lemma SampleChannel(title: string, i: int)
    requires i >= 1
    ensures var c := SampleVideo(title, i).channelName.value;
      |c| == 16 && c[..15] == "Sample Channel " && '1' <= c[15] <= '5'
  {
    var k := i % 5 + 1;
    assert NatToString(k) == [DigitChar(k)];
  }

  /** Without overflow the view count is 1,000,000 + 50,000 i. */
  lemma SampleViewCount(title: string, i: int)
    requires 1 <= i <= 42949
    ensures SampleVideo(title, i).viewCount == 1000000 + 50000 * i
  {
    assert 50000 <= i * 50000 <= INT_MAX;
  }

  /** View counts grow with the position as long as the 32-bit product does not overflow. */
  lemma SampleViewsIncrease(title: string, i: int, j: int)
    requires 1 <= i < j <= 42949
    ensures SampleVideo(title, i).viewCount < SampleVideo(title, j).viewCount
  {
    SampleViewCount(title, i);
    SampleViewCount(title, j);
  }

  /** From position 42950 on the product wraps and the count turns negative. */
  lemma SampleViewsWrap(title: string)
    ensures SampleVideo(title, 42950).viewCount == 1000000 + 42950 * 50000 - TWO_32
    ensures SampleVideo(title, 42950).viewCount < 0
  {
    assert INT_MAX < 42950 * 50000 < TWO_32;
  }

  /**
   * The duration text reads as a clock of (5 + i % 10) minutes and (i % 60)
   * seconds, the seconds written with two digits.
   */
  lemma SampleDurationText(title: string, i: int)
    requires i >= 1
    ensures var d := SampleVideo(title, i).durationText.value;
      ClockValue(d) == Some(60 * (5 + i % 10) + i % 60)
      && |d| >= 4 && d[|d| - 3] == ':' && AllDigits(d[|d| - 2..])
  {
    var m, s := 5 + i % 10, i % 60;
    assert SampleVideo(title, i).durationText.value == IntToString(m) + ":" + Pad2(s);
    MinutesSecondsRoundTrip(m, s);
    TwoDigitTail(IntToString(m), Pad2(s));
  }

  /** A text ending in ':' and a two-digit field has that field as its last two characters. */
  lemma TwoDigitTail(a: string, b: string)
    requires |a| >= 1 && |b| == 2 && AllDigits(b)
    ensures var d := a + ":" + b; |d| >= 4 && d[|d| - 3] == ':' && d[|d| - 2..] == b && AllDigits(d[|d| - 2..])
  {
    var d := a + ":" + b;
    assert d[|d| - 2..] == b;
  }

  /** `createSampleVideoGroup(title, videoCount)`: a new group titled `title` holding videos 1..videoCount. */
  method CreateSampleVideoGroup(title: string, videoCount: int) returns (group: VideoGroup)
    requires videoCount < INT_MAX
    ensures fresh(group) && group.Valid()
    ensures group.title == Some(title) && group.id == None
    ensures group.videos == Some(SomeAll(SampleVideos(title, if videoCount < 0 then 0 else videoCount)))
  {
    group := new VideoGroup();
    group.SetTitle(Some(title));
    var videos: seq<Option<Video>> := [];
    var i := 1;
    while i <= videoCount
      invariant 1 <= i <= (if videoCount < 0 then 1 else videoCount + 1)
      invariant |videos| == i - 1
      invariant forall k :: 0 <= k < |videos| ==> videos[k] == Some(SampleVideo(title, k + 1))
      modifies {}
    {
      SampleListStep(title, videos, i);
      videos := videos + [Some(SampleVideo(title, i))];
      i := i + 1;
    }
    group.SetVideos(Some(videos));
    ghost var n := if videoCount < 0 then 0 else videoCount;
    assert |videos| == n;
    SomeOfEach(title, videos, n);
  }

  /** Appending video i to videos 1..i-1 gives videos 1..i. */
  lemma SampleListStep(title: string, videos: seq<Option<Video>>, i: int)
    requires i >= 1 && |videos| == i - 1
    requires forall k :: 0 <= k < |videos| ==> videos[k] == Some(SampleVideo(title, k + 1))
    ensures var w := videos + [Some(SampleVideo(title, i))];
      |w| == i && forall k :: 0 <= k < |w| ==> w[k] == Some(SampleVideo(title, k + 1))
  {
    var w := videos + [Some(SampleVideo(title, i))];
    forall k | 0 <= k < |w|
      ensures w[k] == Some(SampleVideo(title, k + 1))
    {
      if k < |videos| {
        assert w[k] == videos[k];
      }
    }
  }

  /** A list of present videos 1..n is the sample list itself. */
  lemma SomeOfEach(title: string, videos: seq<Option<Video>>, n: nat)
    requires |videos| == n
    requires forall k :: 0 <= k < n ==> videos[k] == Some(SampleVideo(title, k + 1))
    ensures videos == SomeAll(SampleVideos(title, n))
  {
  }

  /** Every video of a list wrapped as a non-null reference. */
  function SomeAll(vs: seq<Video>): (r: seq<Option<Video>>)
    ensures |r| == |vs| && forall k :: 0 <= k < |vs| ==> r[k] == Some(vs[k])
  {
    seq(|vs|, k requires 0 <= k < |vs| => Some(vs[k]))
  }

  /** Titles and contents of the groups `loadVideoSectionsForCategory` builds from a table. */
  predicate GroupsMatch(groups: seq<VideoGroup>, table: seq<(string, int)>)
    reads set k | 0 <= k < |groups| :: groups[k]
    requires forall k :: 0 <= k < |table| ==> table[k].1 >= 0
  {
    |groups| == |table|
    && forall k :: 0 <= k < |groups| ==>
      groups[k].title == Some(table[k].0) && groups[k].videos == Some(SomeAll(SampleVideos(table[k].0, table[k].1)))
  }

  /** Appends one new sample group to the list being built. */
  method AddSampleGroup(sections: seq<VideoGroup>, title: string, videoCount: int) returns (r: seq<VideoGroup>)
    requires 0 <= videoCount < INT_MAX
    ensures |r| == |sections| + 1 && r[..|sections|] == sections && fresh(r[|sections|])
    ensures r[|sections|].title == Some(title)
    ensures r[|sections|].videos == Some(SomeAll(SampleVideos(title, videoCount)))
  {
    var group := CreateSampleVideoGroup(title, videoCount);
    r := sections + [group];
  }

  /** `loadVideoSectionsForCategory(category)`: new groups, one per row of the category table, in order. */
  method LoadVideoSectionsForCategory(category: string) returns (sections: seq<VideoGroup>)
    ensures forall k :: 0 <= k < |sections| ==> fresh(sections[k])
    ensures GroupsMatch(sections, CategoryTable(category))
  {
    sections := [];
    match category {
      case "home" =>
        sections := AddSampleGroup(sections, "Recommended", 20);
        sections := AddSampleGroup(sections, "Recently Uploaded", 15);
        sections := AddSampleGroup(sections, "Popular Today", 12);
      case "trending" =>
        sections := AddSampleGroup(sections, "Trending Now", 25);
        sections := AddSampleGroup(sections, "Music", 15);
        sections := AddSampleGroup(sections, "Gaming", 15);
      case "subscriptions" =>
        sections := AddSampleGroup(sections, "Latest Uploads", 20);
        sections := AddSampleGroup(sections, "Recommended from Subscriptions", 15);
      case "library" =>
        sections := AddSampleGroup(sections, "Watch Later", 10);
        sections := AddSampleGroup(sections, "Liked Videos", 8);
        sections := AddSampleGroup(sections, "My Playlists", 5);
      case "history" =>
        sections := AddSampleGroup(sections, "Recently Watched", 20);
        sections := AddSampleGroup(sections, "Watch Again", 15);
      case _ =>
        sections := AddSampleGroup(sections, "Content", 10);
    }
  }

  /** `formatViewCount(views)`: "M" from a million up, "K" from a thousand up, the plain number below. */
  function FormatViewCount(views: int): (r: Shown)
    ensures r.Plain? <==> views < 1000
    ensures r.Plain? ==> ParseInt(r.text) == Some(views)
    ensures r.OneDecimal? ==> r.numerator == views && 1000 <= r.denominator <= views
    ensures r.OneDecimal? ==> (r.suffix == "M" <==> views >= 1000000) && (r.suffix == "K" <==> views < 1000000)
    ensures r.OneDecimal? ==> (r.suffix == "M" <==> r.denominator == 1000000) && (r.suffix == "K" <==> r.denominator == 1000)
  {
    if views >= 1000000 then OneDecimal(views, 1000000, "M")
    else if views >= 1000 then OneDecimal(views, 1000, "K")
    else IntToStringRoundTrip(views); Plain(IntToString(views))
  }

  /**
   * The browse screen renders counts as the video model does below a
   * billion; from a billion on it keeps "M" where the model switches to "B".
   */
  lemma FormatViewCountAgrees(views: int)
    ensures views < 1000000000 ==> FormatViewCount(views) == FormattedViewCount(views)
    ensures views >= 1000000000 ==> FormatViewCount(views).suffix == "M" && FormattedViewCount(views).suffix == "B"
  {
  }

  /** A duration text that is present and not empty. */
  predicate HasText(s: Option<string>)
  {
    s.Some? && s.value != ""
  }

  const SEPARATOR: string := " \U{2022} "

  /**
   * `formatVideoInfo(video)`: the view count with " views" when positive,
   * then the duration text; the separator only when both are present.
   */
  method FormatVideoInfo(video: Video) returns (info: Shown)
    ensures IsBlank(info) <==> video.viewCount <= 0 && !HasText(video.durationText)
    ensures video.viewCount <= 0 ==> info == Plain(if HasText(video.durationText) then video.durationText.value else "")
    ensures video.viewCount > 0 && !HasText(video.durationText) ==> info == Append(FormatViewCount(video.viewCount), " views")
    ensures video.viewCount > 0 && HasText(video.durationText) ==>
      info == Append(FormatViewCount(video.viewCount), " views" + SEPARATOR + video.durationText.value)
  {
    info := Plain("");
    if video.viewCount > 0 {
      info := Append(FormatViewCount(video.viewCount), " views");
    }
    if video.durationText.Some? && video.durationText.value != "" {
      if !IsBlank(info) {
        AppendTwice(FormatViewCount(video.viewCount), " views", SEPARATOR);
        info := Append(info, SEPARATOR);
      }
      if video.viewCount > 0 {
        AppendTwice(FormatViewCount(video.viewCount), " views" + SEPARATOR, video.durationText.value);
        assert " views" + SEPARATOR + video.durationText.value == " views" + (SEPARATOR + video.durationText.value);
      }
      info := Append(info, video.durationText.value);
    }
  }

  const SEARCH_PREFIX: string := "Search Results for \""

  /** The title of the search group: the query in double quotes after a fixed prefix. */
  function SearchResultsTitle(query: string): (t: string)
    ensures |t| == |SEARCH_PREFIX| + |query| + 1
    ensures StartsWith(t, SEARCH_PREFIX) && t[|t| - 1] == '"'
    ensures t[|SEARCH_PREFIX|..|t| - 1] == query
  {
    SEARCH_PREFIX + query + "\""
  }

  /** `performSearch(query)`: a single new group of fifteen sample videos titled after the query. */
  method PerformSearch(query: string) returns (sections: seq<VideoGroup>)
    ensures forall k :: 0 <= k < |sections| ==> fresh(sections[k])
    ensures GroupsMatch(sections, [(SearchResultsTitle(query), 15)])
  {
    sections := AddSampleGroup([], SearchResultsTitle(query), 15);
  }

  /** The controller's navigation state. */
  class Browser {
    var currentSection: string

    /** The screen opens on the home section. */
    constructor ()
      ensures currentSection == "home"
    {
      currentSection := "home";
    }

    /** A sidebar button other than settings: remember the category and load its groups. */
    method SelectCategory(category: string) returns (sections: seq<VideoGroup>)
      modifies this
      ensures currentSection == category
      ensures forall k :: 0 <= k < |sections| ==> fresh(sections[k])
      ensures GroupsMatch(sections, CategoryTable(category))
    {
      currentSection := category;
      sections := LoadVideoSectionsForCategory(category);
    }

    /**
     * `onSearch()`: a query that trims to nothing changes nothing; any other
     * switches to the search section and searches for the trimmed text.
     */
    method OnSearch(text: string) returns (sections: seq<VideoGroup>)
      modifies this
      ensures Trim(text) == [] ==> currentSection == old(currentSection) && sections == []
      ensures Trim(text) != [] ==> currentSection == "search"
      ensures forall k :: 0 <= k < |sections| ==> fresh(sections[k])
      ensures Trim(text) != [] ==> GroupsMatch(sections, [(SearchResultsTitle(Trim(text)), 15)])
    {
      var query := Trim(text);
      sections := [];
      if query != [] {
        currentSection := "search";
        sections := PerformSearch(query);
      }
    }
  }
}

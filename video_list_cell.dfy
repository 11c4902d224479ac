/**
 * ui/VideoListCell.java: one row of the search-result and playlist lists.
 * `updateItem` rewrites the row's labels from the video it is given; the
 * labels are fields of the cell. The thumbnail image is not modelled.
 */
module VideoListCells {
  import opened Base
  import opened Text
  import opened Videos

  /** The channel label: the channel name, "Unknown Channel" when it is null. */
  function ChannelLabel(v: Video): (r: string)
    ensures v.channelName.Some? ==> r == v.channelName.value
    ensures v.channelName.None? ==> r == "Unknown Channel"
  {
    if v.channelName.Some? then v.channelName.value else "Unknown Channel"
  }

  /** The duration label: empty for a null or zero duration, the video's own clock text otherwise. */
  function DurationLabel(v: Video): (r: string)
    ensures r == "" <==> v.duration.None? || v.duration == Some(0)
    ensures v.duration.Some? && v.duration.value != 0 ==> r == FormattedDuration(v)
    ensures v.duration.Some? && v.duration.value > 0 ==> ClockValue(r) == Some(v.duration.value)
  {
    if v.duration.Some? && v.duration.value != 0 then FormattedDuration(v) else ""
  }

  /** `formatViewCount(viewCount)`: "B", "M", "K" from a billion, a million, a thousand up; the number below. */
  function FormatViewCount(viewCount: int): (r: Shown)
    ensures r.Plain? <==> viewCount < 1000
    ensures r.Plain? ==> ParseInt(r.text) == Some(viewCount)
    ensures r.OneDecimal? ==> r.numerator == viewCount && 1000 <= r.denominator <= viewCount
    ensures r.OneDecimal? ==> r.suffix in {"K", "M", "B"}
    ensures r.OneDecimal? ==> (r.suffix == "K" <==> viewCount < 1000000) && (r.suffix == "B" <==> viewCount >= 1000000000)
    ensures r.OneDecimal? ==> (r.suffix == "K" <==> r.denominator == 1000) && (r.suffix == "M" <==> r.denominator == 1000000)
    ensures r.OneDecimal? ==> (r.suffix == "B" <==> r.denominator == 1000000000)
  {
    if viewCount >= 1000000000 then OneDecimal(viewCount, 1000000000, "B")
    else if viewCount >= 1000000 then OneDecimal(viewCount, 1000000, "M")
    else if viewCount >= 1000 then OneDecimal(viewCount, 1000, "K")
    else IntToStringRoundTrip(viewCount); Plain(IntToString(viewCount))
  }

  /** The list row renders view counts exactly as the video model does. */
  lemma FormatViewCountAgrees(viewCount: int)
    ensures FormatViewCount(viewCount) == FormattedViewCount(viewCount)
  {
  }

  /** The view label: empty unless the count is positive, then the count followed by " views". */
  function ViewsLabel(v: Video): (r: Shown)
    ensures IsBlank(r) <==> v.viewCount <= 0
    ensures v.viewCount > 0 ==> r == Append(FormatViewCount(v.viewCount), " views")
  {
    if v.viewCount > 0 then Append(FormatViewCount(v.viewCount), " views") else Plain("")
  }

  /**
   * `formatDuration(durationSeconds)`: "" for no time, else "h:mm:ss" from an
   * hour up and "m:ss" below, with minutes and seconds padded to two digits.
   */
  function FormatDuration(durationSeconds: int): (r: string)
    ensures r == "" <==> durationSeconds <= 0
    ensures durationSeconds > 0 ==> ClockValue(r) == Some(durationSeconds)
  {
    if durationSeconds <= 0 then ""
    else
      var hours := durationSeconds / 3600;
      var minutes := (durationSeconds % 3600) / 60;
      var seconds := durationSeconds % 60;
      FormatDurationIsClockText(durationSeconds);
      if hours > 0 then IntToString(hours) + ":" + Pad2(minutes) + ":" + Pad2(seconds)
      else IntToString(minutes) + ":" + Pad2(seconds)
  }

  /**
   * For a positive number of seconds the row's formatter writes the same text
   * as the video's own `getFormattedDuration`.
   */
  lemma FormatDurationIsClockText(durationSeconds: int)
    requires durationSeconds > 0
    ensures var hours, minutes, seconds := durationSeconds / 3600, (durationSeconds % 3600) / 60, durationSeconds % 60;
      ClockText(durationSeconds)
      == if hours > 0 then IntToString(hours) + ":" + Pad2(minutes) + ":" + Pad2(seconds)
         else IntToString(minutes) + ":" + Pad2(seconds)
    ensures ClockValue(ClockText(durationSeconds)) == Some(durationSeconds)
  {
    assert JavaDiv(durationSeconds, 3600) == durationSeconds / 3600;
    assert JavaRem(durationSeconds, 3600) == durationSeconds % 3600;
    assert JavaDiv(durationSeconds % 3600, 60) == (durationSeconds % 3600) / 60;
    assert JavaRem(durationSeconds, 60) == durationSeconds % 60;
  }

  /** The row's state: the item it shows and the text of its labels. */
  class VideoListCell {
    var item: Option<Video>
    var isEmpty: bool
    var titleText: Option<string>
    var channelText: string
    var durationText: string
    var viewCountText: Shown
    var graphicShown: bool

    /** `new VideoListCell()`: blank labels, content graphic set, no item yet. */
    constructor ()
      ensures item == None && isEmpty && graphicShown
      ensures titleText == Some("") && channelText == "" && durationText == "" && viewCountText == Plain("")
    {
      item := None;
      isEmpty := true;
      titleText := Some("");
      channelText := "";
      durationText := "";
      viewCountText := Plain("");
      graphicShown := true;
    }

    /**
     * `updateItem(video, empty)`: an empty row or a null video hides the
     * graphic and keeps the labels; otherwise each label is rewritten from the video.
     */
    method UpdateItem(video: Option<Video>, empty: bool)
      modifies this
      ensures item == video && isEmpty == empty
      ensures empty || video.None? ==>
        !graphicShown && titleText == old(titleText) && channelText == old(channelText)
        && durationText == old(durationText) && viewCountText == old(viewCountText)
      ensures !empty && video.Some? ==>
        graphicShown && titleText == video.value.title && channelText == ChannelLabel(video.value)
        && durationText == DurationLabel(video.value) && viewCountText == ViewsLabel(video.value)
    {
      item := video;
      isEmpty := empty;
      if empty || video.None? {
        graphicShown := false;
        return;
      }
      var v := video.value;
      titleText := v.title;
      channelText := if v.channelName.Some? then v.channelName.value else "Unknown Channel";
      if v.duration.Some? && v.duration.value != 0 {
        durationText := FormattedDuration(v);
      } else {
        durationText := "";
      }
      if v.viewCount > 0 {
        viewCountText := Append(FormatViewCount(v.viewCount), " views");
      } else {
        viewCountText := Plain("");
      }
      graphicShown := true;
    }
  }
}

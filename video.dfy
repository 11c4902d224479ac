/**
 * model/Video.java: a video and its metadata. The Java class is a bean
 * whose setters only assign fields; the rest of the program fills a Video
 * once and then only reads it, so it is modelled as a value and a setter
 * is a datatype update. `java.time.Duration` is kept as its whole seconds.
 */
module Videos {
  import opened Base
  import opened Text
  import opened Seqs
  import opened VideoFormats

  datatype Video = Video(
    videoId: Option<string>,
    title: Option<string>,
    description: Option<string>,
    channelName: Option<string>,
    channelId: Option<string>,
    channelUrl: Option<string>,
    thumbnailUrl: Option<string>,
    duration: Option<int>,
    durationText: Option<string>,
    viewCount: int,
    likes: int,
    uploadDate: Option<string>,
    streamUrl: Option<string>,
    formats: Option<seq<VideoFormat>>,
    isLive: bool,
    category: Option<string>,
    tags: Option<seq<string>>)

  /** `new Video()`: every reference null, both counts zero, not live. */
  function NewVideo(): (v: Video)
    ensures v.videoId == None && v.title == None && v.duration == None && v.durationText == None
    ensures v.viewCount == 0 && v.likes == 0 && !v.isLive && v.formats == None && v.streamUrl == None
  {
    Video(None, None, None, None, None, None, None, None, None, 0, 0, None, None, None, false, None, None)
  }

  /** `new Video(videoId, title)`: the two given fields, the rest as in `new Video()`. */
  function NewVideoWith(videoId: Option<string>, title: Option<string>): (v: Video)
    ensures v.videoId == videoId && v.title == title
    ensures v.(videoId := None, title := None) == NewVideo()
  {
    NewVideo().(videoId := videoId, title := title)
  }

  const WATCH_PREFIX: string := "https://www.youtube.com/watch?v="

  /** `getYouTubeUrl()`: the watch prefix followed by the id, "null" for a null id. */
  function YouTubeUrl(v: Video): (u: string)
    ensures StartsWith(u, WATCH_PREFIX)
    ensures v.videoId.Some? ==> u[|WATCH_PREFIX|..] == v.videoId.value
  {
    WATCH_PREFIX + JavaStr(v.videoId)
  }

  /**
   * `getFormattedViewCount()`: the plain number below 1000, otherwise one
   * decimal with the unit K, M or B.
   */
  function FormattedViewCount(count: int): (r: Shown)
    ensures r.Plain? <==> count < 1000
    ensures r.Plain? ==> ParseInt(r.text) == Some(count)
    ensures r.OneDecimal? ==> r.numerator == count && 1000 <= r.denominator <= count
    ensures r.OneDecimal? ==> r.suffix in {"K", "M", "B"}
    ensures r.OneDecimal? ==> (r.suffix == "K" <==> count < 1000000) && (r.suffix == "B" <==> count >= 1000000000)
    ensures r.OneDecimal? && r.suffix != "B" ==> count < 1000 * r.denominator
    ensures r.OneDecimal? ==> (r.suffix == "K" <==> r.denominator == 1000)
    ensures r.OneDecimal? ==> (r.suffix == "M" <==> r.denominator == 1000000)
    ensures r.OneDecimal? ==> (r.suffix == "B" <==> r.denominator == 1000000000)
  {
    if count < 1000 then IntToStringRoundTrip(count); Plain(IntToString(count))
    else if count < 1000000 then OneDecimal(count, 1000, "K")
    else if count < 1000000000 then OneDecimal(count, 1000000, "M")
    else OneDecimal(count, 1000000000, "B")
  }

  /**
   * The clock layout of `getFormattedDuration()` for a known duration, in
   * Java's truncating `long` arithmetic: "h:mm:ss" when the hour count is
   * positive, "m:ss" otherwise.
   */
  function ClockText(ts: int): (r: string)
    ensures ts >= 0 ==> ClockValue(r) == Some(ts)
  {
    var hours := JavaDiv(ts, 3600);
    var minutes := JavaDiv(JavaRem(ts, 3600), 60);
    var seconds := JavaRem(ts, 60);
    ClockFieldsValue(ts, hours, minutes, seconds);
    ClockFields(hours, minutes, seconds)
  }

  /** The text of computed hours, minutes and seconds: the hour field only when positive. */
  function ClockFields(hours: int, minutes: int, seconds: int): string
  {
    if hours > 0 then IntToString(hours) + ":" + Pad2(minutes) + ":" + Pad2(seconds)
    else IntToString(minutes) + ":" + Pad2(seconds)
  }

  /** For a non-negative duration the fields `getFormattedDuration` computes read back as the duration. */
  lemma ClockFieldsValue(ts: int, hours: int, minutes: int, seconds: int)
    requires hours == JavaDiv(ts, 3600) && minutes == JavaDiv(JavaRem(ts, 3600), 60) && seconds == JavaRem(ts, 60)
    ensures ts >= 0 ==> ClockValue(ClockFields(hours, minutes, seconds)) == Some(ts)
  {
    if ts >= 3600 {
      assert JavaDiv(ts, 3600) == ts / 3600 && JavaRem(ts, 3600) == ts % 3600;
      assert JavaDiv(ts % 3600, 60) == (ts % 3600) / 60 && JavaRem(ts, 60) == ts % 60;
      HoursMinutesSecondsSum(ts);
      ClockFieldsRoundTrip(hours, minutes, seconds);
    } else if ts >= 0 {
      assert JavaDiv(ts, 3600) == 0 && JavaRem(ts, 3600) == ts;
      assert JavaDiv(ts, 60) == ts / 60 && JavaRem(ts, 60) == ts % 60;
      MinutesSecondsRoundTrip(minutes, seconds);
      assert 60 * minutes + seconds == ts;
    }
  }

  /** Hours, minutes and seconds add back up to the duration. */
  lemma HoursMinutesSecondsSum(ts: nat)
    ensures 3600 * (ts / 3600) + 60 * ((ts % 3600) / 60) + ts % 60 == ts
  {
    var r := ts % 3600;
    assert ts == 3600 * (ts / 3600) + r;
    assert r == 60 * (r / 60) + r % 60;
    assert r % 60 == ts % 60 by {
      assert ts == 60 * (60 * (ts / 3600) + r / 60) + r % 60;
    }
  }

  /** An unpadded hour field and padded minute and second fields read back as their total. */
  lemma ClockFieldsRoundTrip(h: nat, m: nat, s: nat)
    ensures ClockValue(IntToString(h) + ":" + Pad2(m) + ":" + Pad2(s)) == Some(3600 * h + 60 * m + s)
  {
    Pad2RoundTrip(m);
    Pad2RoundTrip(s);
    ParseNatToString(h);
    ClockValueOfThree(IntToString(h), Pad2(m), Pad2(s), h, m, s);
  }

  /** An unpadded minute field and a padded second field read back as their total. */
  lemma MinutesSecondsRoundTrip(m: nat, s: nat)
    ensures ClockValue(IntToString(m) + ":" + Pad2(s)) == Some(60 * m + s)
  {
    Pad2RoundTrip(s);
    ParseNatToString(m);
    ClockValueOfTwo(IntToString(m), Pad2(s), m, s);
  }

  /**
   * The shape of a clock text split at ':': n fields, the leading one
   * unpadded, every later one two digits with a value below 60.
   */
  predicate ClockFieldsShape(parts: seq<string>, n: nat)
  {
    && |parts| == n && n >= 1 && |parts[0]| >= 1
    && (parts[0] == "0" || parts[0][0] != '0')
    && (forall i :: 1 <= i < |parts| ==> |parts[i]| == 2 && ParseNat(parts[i]).Some? && ParseNat(parts[i]).value < 60)
  }

  /** Below an hour the clock text is the minutes, a colon and the padded seconds. */
  lemma ClockTextBelowHour(ts: int)
    requires 0 <= ts < 3600
    ensures ClockText(ts) == IntToString(ts / 60) + ":" + Pad2(ts % 60)
  {
    assert JavaDiv(ts, 3600) == 0 && JavaRem(ts, 3600) == ts;
    assert JavaDiv(ts, 60) == ts / 60 && JavaRem(ts, 60) == ts % 60;
  }

  /** From an hour on the clock text is hours, padded minutes and padded seconds. */
  lemma ClockTextFromHour(ts: int)
    requires ts >= 3600
    ensures ClockText(ts) == IntToString(ts / 3600) + ":" + Pad2((ts % 3600) / 60) + ":" + Pad2(ts % 60)
  {
    assert JavaDiv(ts, 3600) == ts / 3600 && JavaRem(ts, 3600) == ts % 3600;
    assert JavaDiv(ts % 3600, 60) == (ts % 3600) / 60 && JavaRem(ts, 60) == ts % 60;
  }

  /**
   * For a non-negative duration the leading field is unpadded and the
   * trailing fields are two digits, each below 60; three fields from one
   * hour on.
   */
  lemma ClockLayout(ts: int)
    requires ts >= 0
    ensures ClockFieldsShape(Split(ClockText(ts), ':'), if ts >= 3600 then 3 else 2)
  {
    if ts >= 3600 {
      ClockLayoutFromHour(ts);
    } else {
      ClockLayoutBelowHour(ts);
    }
  }

  lemma ClockLayoutFromHour(ts: int)
    requires ts >= 3600
    ensures ClockFieldsShape(Split(ClockText(ts), ':'), 3)
  {
    var h, m, s := ts / 3600, (ts % 3600) / 60, ts % 60;
    ClockTextFromHour(ts);
    Pad2RoundTrip(m);
    Pad2RoundTrip(s);
    NoColonIn(Pad2(m));
    NoColonIn(Pad2(s));
    NoColonIn(IntToString(h));
    SplitThree(IntToString(h), Pad2(m), Pad2(s));
    ShapeOfThree(IntToString(h), Pad2(m), Pad2(s));
  }

  lemma ClockLayoutBelowHour(ts: int)
    requires 0 <= ts < 3600
    ensures ClockFieldsShape(Split(ClockText(ts), ':'), 2)
  {
    var m, s := ts / 60, ts % 60;
    ClockTextBelowHour(ts);
    Pad2RoundTrip(s);
    NoColonIn(Pad2(s));
    var a, b := IntToString(m), Pad2(s);
    NoColonIn(a);
    assert a + ":" + b == a + [':'] + b;
    SplitAt(a, ':', b);
    SplitWhole(b, ':');
    ShapeOfTwo(a, b);
  }

  lemma ShapeOfThree(a: string, b: string, c: string)
    requires |a| >= 1 && (a == "0" || a[0] != '0') && SixtyField(b) && SixtyField(c)
    ensures ClockFieldsShape([a, b, c], 3)
  {
    var parts := [a, b, c];
    assert parts[0] == a && parts[1] == b && parts[2] == c;
  }

  lemma ShapeOfTwo(a: string, b: string)
    requires |a| >= 1 && (a == "0" || a[0] != '0') && SixtyField(b)
    ensures ClockFieldsShape([a, b], 2)
  {
    var parts := [a, b];
    assert parts[0] == a && parts[1] == b;
  }

  /** 125 seconds are shown as "2:05". */
  lemma ClockTextExample()
    ensures ClockText(125) == "2:05"
  {
    ClockTextBelowHour(125);
    assert 125 / 60 == 2 && 125 % 60 == 5;
    SingleDigit(2);
    SingleDigit(5);
    assert DigitChar(2) == '2' && DigitChar(5) == '5';
  }

  /** Less than a minute below zero, the clock text is "0:" and the signed seconds. */
  lemma ClockTextSmallNegative(ts: int)
    requires -60 < ts < 0
    ensures ClockText(ts) == "0:-" + NatToString(-ts)
  {
    assert JavaDiv(ts, 3600) == 0 && JavaRem(ts, 3600) == ts;
    assert JavaDiv(ts, 60) == 0 && JavaRem(ts, 60) == ts;
    assert IntToString(0) == "0";
  }

  /** A negative duration keeps Java's signs: -5 seconds are shown as "0:-5". */
  lemma ClockTextNegative()
    ensures ClockText(-5) == "0:-5"
  {
    ClockTextSmallNegative(-5);
    assert NatToString(5) == "5";
  }

  /** `getFormattedDuration()`. */
  function FormattedDuration(v: Video): (r: string)
    ensures v.duration.None? && v.durationText.Some? ==> r == v.durationText.value
    ensures v.duration.None? && v.durationText.None? ==> r == "Unknown"
    ensures v.duration.Some? && v.duration.value >= 0 ==> ClockValue(r) == Some(v.duration.value)
    ensures v.duration.Some? ==> r != []
  {
    match v.duration
    case None => if v.durationText.Some? then v.durationText.value else "Unknown"
    case Some(ts) =>
      ClockText(ts)
  }

  /** The scan of `getBestFormat` stops at a format whose label equals the request, or throws on a null label. */
  predicate StopsExactScan(f: VideoFormat, preferred: Option<string>)
  {
    f.qualityLabel.None? || f.qualityLabel == preferred
  }

  function ExactStop(preferred: Option<string>): VideoFormat -> bool
  {
    f => StopsExactScan(f, preferred)
  }

  /**
   * `filter(hasVideo && hasAudio).max(by height)`: the position of the
   * tallest combined format, the first of equally tall ones (`Stream.max`
   * keeps the earlier element on ties), or -1 when none is combined.
   */
  function TallestCombinedIndex(fs: seq<VideoFormat>): (k: int)
    ensures -1 <= k < |fs|
    ensures k < 0 <==> forall j :: 0 <= j < |fs| ==> !IsCombined(fs[j])
    ensures k >= 0 ==> IsCombined(fs[k])
    ensures k >= 0 ==> forall j :: 0 <= j < |fs| && IsCombined(fs[j]) ==> fs[j].height <= fs[k].height
    ensures k >= 0 ==> forall j :: 0 <= j < k && IsCombined(fs[j]) ==> fs[j].height < fs[k].height
  {
    if fs == [] then -1
    else
      var init := fs[..|fs| - 1];
      var m := TallestCombinedIndex(init);
      var last := |fs| - 1;
      assert forall j :: 0 <= j < last ==> fs[j] == init[j];
      if !IsCombined(fs[last]) then m
      else if m >= 0 && fs[m].height >= fs[last].height then m
      else last
  }

  /**
   * `getBestFormat(preferredQuality)`: null for a missing or empty list;
   * else the first format whose label equals the request (a null label met
   * first throws); else the tallest combined format; else the head.
   */
  function BestFormat(v: Video, preferred: Option<string>): (r: Result<Option<VideoFormat>>)
    ensures r == Ok(None) <==> v.formats.None? || v.formats.value == []
    ensures r.Ok? && r.value.Some? ==> r.value.value in v.formats.value
  {
    if v.formats.None? || v.formats.value == [] then Ok(None)
    else
      var fs := v.formats.value;
      var k := FirstIndex(fs, ExactStop(preferred));
      if k >= 0 then
        if fs[k].qualityLabel.None? then NullPointer else Ok(Some(fs[k]))
      else
        var t := TallestCombinedIndex(fs);
        Ok(Some(if t >= 0 then fs[t] else fs[0]))
  }

  /** Before position k no label is null or equal to the request. */
  predicate NoExactStopBefore(fs: seq<VideoFormat>, preferred: Option<string>, k: int)
    requires 0 <= k <= |fs|
  {
    forall j :: 0 <= j < k ==> fs[j].qualityLabel.Some? && fs[j].qualityLabel != preferred
  }

  /** The first label equal to the request, with no null label before it, selects that format. */
  lemma BestFormatExactMatch(v: Video, preferred: Option<string>, k: nat)
    requires v.formats.Some? && k < |v.formats.value|
    requires preferred.Some? && v.formats.value[k].qualityLabel == preferred
    requires NoExactStopBefore(v.formats.value, preferred, k)
    ensures BestFormat(v, preferred) == Ok(Some(v.formats.value[k]))
  {
    var fs := v.formats.value;
    assert ExactStop(preferred)(fs[k]);
    assert forall j :: 0 <= j < k ==> !ExactStop(preferred)(fs[j]);
  }

  /** A null label met before any match makes `getBestFormat` throw. */
  lemma BestFormatNullLabel(v: Video, preferred: Option<string>, k: nat)
    requires v.formats.Some? && k < |v.formats.value|
    requires v.formats.value[k].qualityLabel.None?
    requires NoExactStopBefore(v.formats.value, preferred, k)
    ensures BestFormat(v, preferred).NullPointer?
  {
    var fs := v.formats.value;
    assert ExactStop(preferred)(fs[k]);
    assert forall j :: 0 <= j < k ==> !ExactStop(preferred)(fs[j]);
  }

  /**
   * With every label non-null and none equal to the request, the result is
   * the tallest combined format, the first among equally tall ones, and the
   * head of the list when none is combined.
   */
  lemma BestFormatFallback(v: Video, preferred: Option<string>)
    requires v.formats.Some? && v.formats.value != []
    requires NoExactStopBefore(v.formats.value, preferred, |v.formats.value|)
    ensures var fs := v.formats.value; var r := BestFormat(v, preferred);
      && r.Ok? && r.value.Some?
      && ((forall j :: 0 <= j < |fs| ==> !IsCombined(fs[j])) ==> r.value.value == fs[0])
      && (forall j :: 0 <= j < |fs| && IsCombined(fs[j]) ==>
            IsCombined(r.value.value) && fs[j].height <= r.value.value.height)
      && (TallestCombinedIndex(fs) >= 0 ==> r.value.value == fs[TallestCombinedIndex(fs)])
  {
    var fs := v.formats.value;
    assert forall j :: 0 <= j < |fs| ==> !ExactStop(preferred)(fs[j]);
    var t := TallestCombinedIndex(fs);
    if t >= 0 {
      assert fs[t] == BestFormat(v, preferred).value.value;
    }
  }

  /** `equals`: two videos are equal exactly when their ids are, null ids included. */
  predicate Equals(a: Video, b: Video)
    ensures Equals(a, b) ==> HashCode(a) == HashCode(b)
  {
    a.videoId == b.videoId
  }

  /** `hashCode()`: `Objects.hash(videoId)`, that is 31 plus the id's hash, in 32-bit arithmetic. */
  function HashCode(v: Video): (h: int)
    ensures INT_MIN <= h <= INT_MAX
    ensures v.videoId.None? ==> h == 31
  {
    Wrap32(31 + (if v.videoId.Some? then StringHash(v.videoId.value) else 0))
  }

  /** Equality is an equivalence that looks only at the id. */
  lemma EqualsIsIdEquivalence(a: Video, b: Video, c: Video)
    ensures Equals(a, a)
    ensures Equals(a, b) ==> Equals(b, a)
    ensures Equals(a, b) && Equals(b, c) ==> Equals(a, c)
    ensures a.videoId.None? && b.videoId.None? ==> Equals(a, b)
  {
  }
}

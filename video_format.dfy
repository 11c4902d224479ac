/**
 * model/VideoFormat.java: one playable stream of a video. The Java class is
 * a plain bean whose setters only assign fields, so it is modelled as a
 * value; a setter is a datatype update. Java `int` and `long` fields are
 * unbounded integers here: no operation on them in the core can overflow.
 */
module VideoFormats {
  import opened Base
  import opened Text

  datatype VideoFormat = VideoFormat(
    url: Option<string>,
    mimeType: Option<string>,
    qualityLabel: Option<string>,
    codec: Option<string>,
    width: int,
    height: int,
    fps: int,
    bitrate: int,
    contentLength: int,
    hasVideo: bool,
    hasAudio: bool,
    audioCodec: Option<string>,
    audioBitrate: int,
    audioSampleRate: int)

  /** `new VideoFormat()`: every reference null, every number zero, both flags false. */
  function NewFormat(): (f: VideoFormat)
    ensures !f.hasVideo && !f.hasAudio
    ensures f.width == 0 && f.height == 0 && f.bitrate == 0 && f.contentLength == 0
    ensures f.url == None && f.qualityLabel == None && f.codec == None && f.mimeType == None
  {
    VideoFormat(None, None, None, None, 0, 0, 0, 0, 0, false, false, None, 0, 0)
  }

  /** `new VideoFormat(url, qualityLabel)`: the two given fields, the rest as in `new VideoFormat()`. */
  function NewFormatWith(url: Option<string>, qualityLabel: Option<string>): (f: VideoFormat)
    ensures f.url == url && f.qualityLabel == qualityLabel
    ensures f.(url := None, qualityLabel := None) == NewFormat()
  {
    NewFormat().(url := url, qualityLabel := qualityLabel)
  }

  // The accessors the service layer uses are aliases of two of the fields.

  /** `getQualityLabel()`. */
  function QualityLabel(f: VideoFormat): Option<string> { f.qualityLabel }

  /** `getQuality()`: the same field as `getQualityLabel()`. */
  function Quality(f: VideoFormat): Option<string> { f.qualityLabel }

  /** `setQualityLabel(q)`. */
  function SetQualityLabel(f: VideoFormat, q: Option<string>): VideoFormat { f.(qualityLabel := q) }

  /** `setQuality(q)`: writes the field behind `getQualityLabel()`. */
  function SetQuality(f: VideoFormat, q: Option<string>): VideoFormat { f.(qualityLabel := q) }

  /** `getCodec()`. */
  function Codec(f: VideoFormat): Option<string> { f.codec }

  /** `getVideoCodec()`: the same field as `getCodec()`. */
  function VideoCodec(f: VideoFormat): Option<string> { f.codec }

  /** `setCodec(c)`. */
  function SetCodec(f: VideoFormat, c: Option<string>): VideoFormat { f.(codec := c) }

  /** `setVideoCodec(c)`: writes the field behind `getCodec()`. */
  function SetVideoCodec(f: VideoFormat, c: Option<string>): VideoFormat { f.(codec := c) }

  /** Each alias pair reads and writes one field, and a write changes nothing else. */
  lemma AliasesShareOneField(f: VideoFormat, q: Option<string>, c: Option<string>)
    ensures Quality(f) == QualityLabel(f) && VideoCodec(f) == Codec(f)
    ensures SetQuality(f, q) == SetQualityLabel(f, q)
    ensures QualityLabel(SetQuality(f, q)) == q && Quality(SetQualityLabel(f, q)) == q
    ensures SetQuality(f, q).(qualityLabel := f.qualityLabel) == f
    ensures SetVideoCodec(f, c) == SetCodec(f, c)
    ensures Codec(SetVideoCodec(f, c)) == c && VideoCodec(SetCodec(f, c)) == c
    ensures SetVideoCodec(f, c).(codec := f.codec) == f
  {
  }

  predicate IsVideoOnly(f: VideoFormat) { f.hasVideo && !f.hasAudio }

  predicate IsAudioOnly(f: VideoFormat) { f.hasAudio && !f.hasVideo }

  predicate IsCombined(f: VideoFormat) { f.hasVideo && f.hasAudio }

  /** The three kinds exclude each other, and a format is of some kind exactly when a flag is set. */
  lemma KindsPartitionFlags(f: VideoFormat)
    ensures !(IsVideoOnly(f) && IsAudioOnly(f))
    ensures !(IsVideoOnly(f) && IsCombined(f))
    ensures !(IsAudioOnly(f) && IsCombined(f))
    ensures (IsVideoOnly(f) || IsAudioOnly(f) || IsCombined(f)) <==> (f.hasVideo || f.hasAudio)
  {
  }

  /** `getResolution()`: "WIDTHxHEIGHT" when both are positive, else the quality label, else "Unknown". */
  function Resolution(f: VideoFormat): (r: string)
    ensures !(f.width > 0 && f.height > 0) ==> r == (if f.qualityLabel.Some? then f.qualityLabel.value else "Unknown")
  {
    if f.width > 0 && f.height > 0 then IntToString(f.width) + "x" + IntToString(f.height)
    else if f.qualityLabel.Some? then f.qualityLabel.value
    else "Unknown"
  }

  /** Reads "WIDTHxHEIGHT" back into its two numbers. */
  function ParseDimensions(r: string): Option<(nat, nat)>
  {
    var parts := Split(r, 'x');
    if |parts| != 2 then None
    else
      match (ParseNat(parts[0]), ParseNat(parts[1]))
      case (Some(w), Some(h)) => Some((w, h))
      case _ => None
  }

  lemma DigitsHaveNo(s: string, c: char)
    requires AllDigits(s) && !IsDigit(c)
    ensures c !in s
  {
  }

  /** With both dimensions positive, the resolution text encodes exactly the width and the height. */
  lemma ResolutionRoundTrip(f: VideoFormat)
    requires f.width > 0 && f.height > 0
    ensures ParseDimensions(Resolution(f)) == Some((f.width, f.height))
  {
    var w, h := NatToString(f.width), NatToString(f.height);
    DigitsHaveNo(w, 'x');
    DigitsHaveNo(h, 'x');
    assert Resolution(f) == w + ['x'] + h;
    SplitAt(w, 'x', h);
    assert Split(Resolution(f), 'x') == [w, h];
    ParseNatToString(f.width);
    ParseNatToString(f.height);
  }

  /** `getFormattedBitrate()`; the `%.1f` digits are not computed (see Text.Shown). */
  function FormattedBitrate(f: VideoFormat): (r: Shown)
    ensures r == Plain("Unknown") <==> f.bitrate <= 0
    ensures r.Plain? && f.bitrate > 0 ==> r.text == NatToString(f.bitrate) + " bps" && f.bitrate < 1000
    ensures r.OneDecimal? ==> r.numerator == f.bitrate && 1000 <= r.denominator <= r.numerator
    ensures r.OneDecimal? && r.suffix == " Kbps" ==> r.numerator < 1000 * r.denominator
    ensures r.OneDecimal? ==> r.suffix in {" Kbps", " Mbps"} && (r.suffix == " Kbps" <==> r.denominator == 1000)
    ensures r.OneDecimal? ==> (r.suffix == " Kbps" <==> f.bitrate < 1000000) && (r.suffix == " Mbps" ==> r.denominator == 1000000)
  {
    if f.bitrate <= 0 then Plain("Unknown")
    else if f.bitrate < 1000 then
      var t := IntToString(f.bitrate) + " bps";
      assert IsDigit(t[0]);
      Plain(t)
    else if f.bitrate < 1000000 then OneDecimal(f.bitrate, 1000, " Kbps")
    else OneDecimal(f.bitrate, 1000000, " Mbps")
  }

  const KIB: nat := 1024

  /** `getFormattedSize()`; the `%.1f` digits are not computed (see Text.Shown). */
  function FormattedSize(f: VideoFormat): (r: Shown)
    ensures r == Plain("Unknown") <==> f.contentLength <= 0
    ensures r.Plain? && f.contentLength > 0 ==> r.text == NatToString(f.contentLength) + " B" && f.contentLength < KIB
    ensures r.OneDecimal? ==> r.numerator == f.contentLength && KIB <= r.denominator <= r.numerator
    ensures r.OneDecimal? && r.suffix != " GB" ==> r.numerator < KIB * r.denominator
    ensures r.OneDecimal? ==> r.suffix in {" KB", " MB", " GB"}
    ensures r.OneDecimal? && r.suffix == " KB" ==> r.denominator == KIB
    ensures r.OneDecimal? && r.suffix == " MB" ==> r.denominator == KIB * KIB
    ensures r.OneDecimal? && r.suffix == " GB" ==> r.denominator == KIB * KIB * KIB
  {
    if f.contentLength <= 0 then Plain("Unknown")
    else if f.contentLength < KIB then
      var t := IntToString(f.contentLength) + " B";
      assert IsDigit(t[0]);
      Plain(t)
    else if f.contentLength < KIB * KIB then OneDecimal(f.contentLength, KIB, " KB")
    else if f.contentLength < KIB * KIB * KIB then OneDecimal(f.contentLength, KIB * KIB, " MB")
    else OneDecimal(f.contentLength, KIB * KIB * KIB, " GB")
  }
}

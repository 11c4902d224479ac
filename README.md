# SmartTube desktop: a Dafny model of the video, format, service and UI-logic core

SmartTube desktop is a JavaFX YouTube client. This project models the parts of it that decide what
is shown and played. These are:

- the `Video` and `VideoFormat` records, with their derived texts (clock durations, resolution,
  view counts, bitrates, sizes), their format classification and their best-format choice;
- the `YouTubeService` steps that turn extractor results into videos: the format list with its
  three loops, the 720p stream pick, id extraction, the capped search loop, and the stream-URL
  search;
- the `MainController` rules: format selection by quality, the info-panel labels, the zero-padded
  duration, and the playlist with its index;
- `VideoGroup`, a titled list of videos that is changed in place;
- the `BrowseViewController` category table, its sample-group generator, the card info line and the
  search guard;
- the label rules of `VideoListCell`.

Java `null` is `Option.None`. A `NullPointerException` the code can raise is `Result.NullPointer`.
Java's truncating `/` and `%` and its 32-bit `int` wrap-around are written out in `Base`.
Videos and formats are values: a setter is a datatype update.
The playlist, the video group, the browse view's section state and the list cell's labels change in
place, so each is a class with `modifies` contracts.

Files:

- `base.dfy`: `Option`, `Result`, and Java integer arithmetic.
- `text.dfy`: decimal rendering and parsing, `%02d`, `split`, `trim`, `String.hashCode`, and the `Shown`
  label type, which abstracts `%.1f`.
- `seqs.dfy`: first-match search and filter.
- `video_format.dfy`, `video.dfy`, `youtube_service.dfy`, `main_controller.dfy`, `video_group.dfy`,
  `browse_view.dfy` and `video_list_cell.dfy`: one file per source class.


## Model

| member | source | states |
|---|---|---|
| Base.JavaDiv | src/main/java/com/liskovsoft/smarttube/desktop/ui/VideoListCell.java:144-146 | Java's `/` truncates toward zero: the quotient times the divisor is the largest multiple not above a non-negative dividend and the smallest not below a negative one |
| Base.Wrap32 | src/main/java/com/liskovsoft/smarttube/desktop/ui/BrowseViewController.java:244 | 32-bit `int` arithmetic: the result is in int range, congruent to the input modulo 2^32, and equals it when no overflow happens |
| Text.IntToString | src/main/java/com/liskovsoft/smarttube/desktop/ui/BrowseViewController.java:343 | `String.valueOf` of an integer: the decimal digits, a '-' in front of negatives |
| Text.IntToStringRoundTrip | src/main/java/com/liskovsoft/smarttube/desktop/ui/BrowseViewController.java:343 | the decimal text of any integer parses back to the same integer |
| Text.Pad2RoundTrip | src/main/java/com/liskovsoft/smarttube/desktop/ui/MainController.java:583-585 | a `%02d` field of a non-negative number parses back to that number |
| Text.NatToStringInjective | src/main/java/com/liskovsoft/smarttube/desktop/ui/BrowseViewController.java:241 | distinct numbers have distinct decimal texts |
| Text.Trim | src/main/java/com/liskovsoft/smarttube/desktop/ui/BrowseViewController.java:147 | `String.trim`: a contiguous slice of the input with only spaces and control characters cut on either side; empty exactly when every character is one; otherwise it neither starts nor ends with one |
| Text.StringHash | src/main/java/com/liskovsoft/smarttube/desktop/model/VideoGroup.java:135 | `String.hashCode` is always in int range |
| Text.StringHashIsWrappedSum | src/main/java/com/liskovsoft/smarttube/desktop/model/VideoGroup.java:135 | wrapping to 32 bits after every step of `31*h + c` gives the same `int` as computing the sum exactly and wrapping once |
| Text.StringHashClosedForm | src/main/java/com/liskovsoft/smarttube/desktop/model/VideoGroup.java:135 | the hash is the closed form s[0]·31^(n-1) + … + s[n-1], reduced to a 32-bit `int` |
| Seqs.FirstIndex | src/main/java/com/liskovsoft/smarttube/desktop/service/YouTubeService.java:141-143 | `filter(..).findFirst()`: the position of the first element satisfying the predicate, -1 exactly when none does |
| Seqs.FilterThenFirst | src/main/java/com/liskovsoft/smarttube/desktop/ui/MainController.java:482-488 | the head of a filtered list is the first element satisfying both filters |
| VideoFormats.NewFormat | src/main/java/com/liskovsoft/smarttube/desktop/model/VideoFormat.java:23-24 | a new format has no references, zero sizes and neither flag |
| VideoFormats.NewFormatWith | src/main/java/com/liskovsoft/smarttube/desktop/model/VideoFormat.java:25-28 | the two-argument constructor sets url and quality label and nothing else |
| VideoFormats.AliasesShareOneField | src/main/java/com/liskovsoft/smarttube/desktop/model/VideoFormat.java:144-158 | `getQuality`/`setQuality` and `getVideoCodec`/`setVideoCodec` read and write the same fields as `getQualityLabel`/`getCodec`, and a write changes no other field |
| VideoFormats.KindsPartitionFlags | src/main/java/com/liskovsoft/smarttube/desktop/model/VideoFormat.java:194-204 | video-only, audio-only and combined exclude each other, and a format has a kind exactly when one of its flags is set |
| VideoFormats.Resolution | src/main/java/com/liskovsoft/smarttube/desktop/model/VideoFormat.java:161-166 | without two positive dimensions the resolution is the quality label, or "Unknown" when that is null |
| VideoFormats.ResolutionRoundTrip | src/main/java/com/liskovsoft/smarttube/desktop/model/VideoFormat.java:161-163 | with both dimensions positive, "WIDTHxHEIGHT" parses back to exactly the width and the height |
| VideoFormats.FormattedBitrate | src/main/java/com/liskovsoft/smarttube/desktop/model/VideoFormat.java:168-178 | "Unknown" exactly for non-positive bitrates; below 1000 the plain number with " bps"; otherwise " Kbps" exactly below a million and " Mbps" from there, Mbps scaled by 1,000,000 |
| VideoFormats.FormattedSize | src/main/java/com/liskovsoft/smarttube/desktop/model/VideoFormat.java:180-192 | "Unknown" exactly for non-positive lengths; below 1024 the plain number with " B"; otherwise KB, MB or GB at successive powers of 1024, each the largest unit not above the length |
| Videos.NewVideo | src/main/java/com/liskovsoft/smarttube/desktop/model/Video.java:28-29 | a new video has no references, zero counts and is not live |
| Videos.NewVideoWith | src/main/java/com/liskovsoft/smarttube/desktop/model/Video.java:30-33 | the two-argument constructor sets only the id and the title |
| Videos.YouTubeUrl | src/main/java/com/liskovsoft/smarttube/desktop/model/Video.java:182-184 | the watch URL starts with the watch prefix and ends with exactly the id |
| Videos.FormattedViewCount | src/main/java/com/liskovsoft/smarttube/desktop/model/Video.java:186-196 | plain digits exactly below 1000, and they parse back to the count; above that the suffix is one of K, M, B: K exactly below a million, B exactly from a billion, with the largest of 1e3, 1e6, 1e9 not above the count as divisor |
| Videos.ClockText | src/main/java/com/liskovsoft/smarttube/desktop/model/Video.java:201-210 | for a non-negative duration the `h:mm:ss`/`m:ss` text reads back as the same number of seconds |
| Videos.MinutesSecondsRoundTrip | src/main/java/com/liskovsoft/smarttube/desktop/model/Video.java:209 | an `m:ss` text reads back as 60 m + s seconds |
| Videos.ClockLayout | src/main/java/com/liskovsoft/smarttube/desktop/model/Video.java:201-208 | three fields from an hour up, two below; the leading field has no leading zero; every later field has two digits and is below 60 |
| Videos.ClockTextExample | src/main/java/com/liskovsoft/smarttube/desktop/model/Video.java:201-208 | 125 seconds are "2:05" |
| Videos.ClockTextSmallNegative | src/main/java/com/liskovsoft/smarttube/desktop/model/Video.java:201-208 | with Java's truncating arithmetic, less than a minute below zero the text is "0:-" followed by the seconds |
| Videos.ClockTextNegative | src/main/java/com/liskovsoft/smarttube/desktop/model/Video.java:201-208 | -5 seconds are "0:-5" |
| Videos.FormattedDuration | src/main/java/com/liskovsoft/smarttube/desktop/model/Video.java:198-211 | a null duration falls back to the duration text, or "Unknown" when that is null too; a non-negative duration's text reads back as its seconds; a set duration never gives an empty text |
| Videos.TallestCombinedIndex | src/main/java/com/liskovsoft/smarttube/desktop/model/Video.java:226-229 | the first combined format of maximal height, -1 exactly when no format is combined |
| Videos.BestFormat | src/main/java/com/liskovsoft/smarttube/desktop/model/Video.java:213-230 | no format exactly when the list is null or empty; otherwise an element of the list (or the null-label exception) |
| Videos.BestFormatExactMatch | src/main/java/com/liskovsoft/smarttube/desktop/model/Video.java:219-223 | the first format whose label equals the request, with no null label before it, is returned |
| Videos.BestFormatNullLabel | src/main/java/com/liskovsoft/smarttube/desktop/model/Video.java:219-221 | a null label met before any match throws |
| Videos.BestFormatFallback | src/main/java/com/liskovsoft/smarttube/desktop/model/Video.java:225-229 | with no exact match, the first tallest combined format is returned, or the first format when none is combined |
| Videos.HashCode | src/main/java/com/liskovsoft/smarttube/desktop/model/Video.java:240-243 | `Objects.hash(videoId)` is in int range and is 31 for a null id |
| Videos.Equals | src/main/java/com/liskovsoft/smarttube/desktop/model/Video.java:232-243 | equal videos have equal hash codes |
| Videos.EqualsIsIdEquivalence | src/main/java/com/liskovsoft/smarttube/desktop/model/Video.java:232-238 | `equals` is reflexive, symmetric and transitive, and holds for two null ids |
| YouTubeService.ExtractorUrl | src/main/java/com/liskovsoft/smarttube/desktop/service/YouTubeService.java:75 | the extractor receives the watch prefix followed by the argument verbatim |
| YouTubeService.FromVideoStream | src/main/java/com/liskovsoft/smarttube/desktop/service/YouTubeService.java:105-113 | a "with audio" stream gives a format with its URL, resolution as quality, MIME type and format name as codec, `hasVideo` set and everything else as a new format has it, so it is video-only and not combined |
| YouTubeService.FromVideoOnlyStream | src/main/java/com/liskovsoft/smarttube/desktop/service/YouTubeService.java:116-125 | a video-only stream gives the same fields, `hasVideo` set, `hasAudio` cleared, every other field as new |
| YouTubeService.FromAudioStream | src/main/java/com/liskovsoft/smarttube/desktop/service/YouTubeService.java:128-136 | an audio stream gives its URL and MIME type, quality "Audio Only", no codec and only `hasAudio` set, so it is audio-only |
| YouTubeService.BuildFormats | src/main/java/com/liskovsoft/smarttube/desktop/service/YouTubeService.java:102-136 | the three loops produce the video-stream formats, then the video-only ones, then the audio ones, each converted in order |
| YouTubeService.BuiltFormats | src/main/java/com/liskovsoft/smarttube/desktop/service/YouTubeService.java:102-136 | the list is as long as the three stream lists together, and every entry has a quality and is not combined |
| YouTubeService.BuiltFormatsLayout | src/main/java/com/liskovsoft/smarttube/desktop/service/YouTubeService.java:102-136 | the list's length is the sum of the three stream counts, and each block holds the converted streams of its loop in order with its loop's flags and labels |
| YouTubeService.BuiltFormatsOneFlag | src/main/java/com/liskovsoft/smarttube/desktop/service/YouTubeService.java:104-136 | every built format has exactly one of `hasVideo`/`hasAudio`, so none is combined, and every quality is set |
| YouTubeService.VideoLoopsAgree | src/main/java/com/liskovsoft/smarttube/desktop/service/YouTubeService.java:105-125 | the "with audio" loop and the video-only loop build identical formats from the same stream |
| YouTubeService.FromVideoStreamIntended | src/main/java/com/liskovsoft/smarttube/desktop/service/YouTubeService.java:104-113 | the corrected first loop marks a muxed stream as combined and changes nothing else |
| YouTubeService.BuiltFormatsIntendedLayout | src/main/java/com/liskovsoft/smarttube/desktop/service/YouTubeService.java:104-136 | in the corrected list exactly the muxed streams' formats are combined, and they come first |
| YouTubeService.BestStreamUrl | src/main/java/com/liskovsoft/smarttube/desktop/service/YouTubeService.java:141-149 | the URL of the first stream whose resolution contains "720", else the first stream's, none for no streams |
| YouTubeService.GetVideoDetails | src/main/java/com/liskovsoft/smarttube/desktop/service/YouTubeService.java:72-151 | the request URL is the watch prefix plus the argument; every field of the video comes from the stream info; its formats are the built list; its stream URL the 720p pick |
| YouTubeService.ExtractId | src/main/java/com/liskovsoft/smarttube/desktop/service/YouTubeService.java:182-183 | the id is the suffix of the URL that directly follows its last '=', so it contains no '='; it is the whole URL when there is none |
| YouTubeService.ExtractIdAfterLastEquals | src/main/java/com/liskovsoft/smarttube/desktop/service/YouTubeService.java:182-183 | whatever precedes it, the text after an '=' that is followed by no other '=' is the id |
| YouTubeService.ExtractIdOfWatchUrl | src/main/java/com/liskovsoft/smarttube/desktop/service/YouTubeService.java:183 | an id with no '=' comes back out of the watch URL built from it |
| YouTubeService.ConvertItem | src/main/java/com/liskovsoft/smarttube/desktop/service/YouTubeService.java:177-205 | no video exactly when the item has no URL (the caught exception); otherwise the id is the extracted one, the stream URL the watch URL of that id, and title, views and duration come from the item |
| YouTubeService.ConvertedStreamUrlRoundTrip | src/main/java/com/liskovsoft/smarttube/desktop/service/YouTubeService.java:182-197 | the id read back from a converted video's stream URL is the video's id |
| YouTubeService.Converted | src/main/java/com/liskovsoft/smarttube/desktop/service/YouTubeService.java:45-59 | conversion drops items, never adds any; every converted video has an id and its stream URL is the watch URL of that id |
| YouTubeService.ConvertedAppend | src/main/java/com/liskovsoft/smarttube/desktop/service/YouTubeService.java:45-59 | conversion goes item by item: the result for a concatenation is the concatenation of the results |
| YouTubeService.Take | src/main/java/com/liskovsoft/smarttube/desktop/service/YouTubeService.java:45-46 | the loop keeps a prefix of the converted list: none for a non-positive cap, else min(cap, length) videos |
| YouTubeService.ConvertedFromStreamItems | src/main/java/com/liskovsoft/smarttube/desktop/service/YouTubeService.java:48-53 | every result comes from a stream item of the page, converted |
| YouTubeService.TakeStops | src/main/java/com/liskovsoft/smarttube/desktop/service/YouTubeService.java:46 | once enough videos are collected the rest of the page adds nothing |
| YouTubeService.SearchVideos | src/main/java/com/liskovsoft/smarttube/desktop/service/YouTubeService.java:41-61 | the loop returns the first `maxResults` converted stream items, in page order |
| YouTubeService.SearchBounds | src/main/java/com/liskovsoft/smarttube/desktop/service/YouTubeService.java:44-59 | at most `maxResults` videos, none for a non-positive cap, each the conversion of some stream item |
| YouTubeService.StreamUrlChoice | src/main/java/com/liskovsoft/smarttube/desktop/service/YouTubeService.java:215-227 | with null or empty formats the video's stream URL; otherwise some format's URL; the exception only when the scan reaches a format with a null quality |
| YouTubeService.GetStreamUrl | src/main/java/com/liskovsoft/smarttube/desktop/service/YouTubeService.java:215-227 | the search loop returns what the choice above states |
| YouTubeService.StreamUrlFirstMatch | src/main/java/com/liskovsoft/smarttube/desktop/service/YouTubeService.java:217-220 | the first combined format whose quality contains the request, with nothing before it stopping the loop, gives its URL |
| YouTubeService.StreamUrlNullQuality | src/main/java/com/liskovsoft/smarttube/desktop/service/YouTubeService.java:217-218 | a null quality met before any match throws |
| YouTubeService.StreamUrlFallback | src/main/java/com/liskovsoft/smarttube/desktop/service/YouTubeService.java:223-224 | with no match the first format's URL is returned |
| YouTubeService.StreamUrlOfDetailsIgnoresQuality | src/main/java/com/liskovsoft/smarttube/desktop/service/YouTubeService.java:102-136 | on formats built by `getVideoDetails` the requested quality never matters: the first format's URL comes back |
| MainController.QualityKey | src/main/java/com/liskovsoft/smarttube/desktop/ui/MainController.java:482 | the request with every 'p' removed holds no 'p' |
| Text.RemoveCharAppend | src/main/java/com/liskovsoft/smarttube/desktop/ui/MainController.java:482 | `replace` removes piece by piece: on a concatenation it is the concatenation of the two results, so every other character stays, in order |
| MainController.QualityKeyDropsSuffix | src/main/java/com/liskovsoft/smarttube/desktop/ui/MainController.java:482 | a request made of a resolution without 'p' followed by "p" is matched as exactly that resolution |
| MainController.QualityKeyExample | src/main/java/com/liskovsoft/smarttube/desktop/ui/MainController.java:482 | "720p" is matched as "720" |
| MainController.SelectBestFormat | src/main/java/com/liskovsoft/smarttube/desktop/ui/MainController.java:467-493 | null exactly for a null or empty list; otherwise an element of the list |
| MainController.SelectBestFormatChoice | src/main/java/com/liskovsoft/smarttube/desktop/ui/MainController.java:472-492 | "Auto" takes the first combined format; another request takes the first combined format whose quality contains the request minus its 'p's, else the first combined format; with no combined format the head |
| MainController.SelectWithoutCombined | src/main/java/com/liskovsoft/smarttube/desktop/ui/MainController.java:491-492 | with no combined format the head is chosen whatever the request |
| MainController.SelectOnBuiltFormats | src/main/java/com/liskovsoft/smarttube/desktop/ui/MainController.java:467-493 | on formats from `getVideoDetails` the choice is always the list's head |
| MainController.QualityIgnoredExample | src/main/java/com/liskovsoft/smarttube/desktop/ui/MainController.java:482-488 | for a 360p stream listed before a 720p one, asking for "720p" plays the 360p stream |
| MainController.IntendedFormatsHonourQuality | src/main/java/com/liskovsoft/smarttube/desktop/ui/MainController.java:472-488 | on the corrected format list, "Auto" plays the first muxed stream and any other request plays the first muxed stream whose resolution matches |
| MainController.DetailsUrlDoubled | src/main/java/com/liskovsoft/smarttube/desktop/ui/MainController.java:462-465 | `loadVideoDetails` makes the extractor receive the watch prefix twice, not the video's watch URL |
| MainController.DetailsArgumentIntended | src/main/java/com/liskovsoft/smarttube/desktop/ui/MainController.java:462-465 | the corrected argument, the bare id, makes the extractor receive the watch URL of the id |
| MainController.DetailsUrlIntended | src/main/java/com/liskovsoft/smarttube/desktop/ui/MainController.java:462-465 | with the bare id the extractor gets the video's own watch URL, from which the id reads back |
| MainController.HoursMinutesSeconds | src/main/java/com/liskovsoft/smarttube/desktop/ui/MainController.java:578-580 | hours, minutes and seconds of a non-negative count recombine to it, with minutes and seconds below 60 |
| MainController.ZeroIsPaddedClock | src/main/java/com/liskovsoft/smarttube/desktop/ui/MainController.java:574-576 | the non-positive case "00:00" is the padded clock of zero |
| MainController.PaddedClockValue | src/main/java/com/liskovsoft/smarttube/desktop/ui/MainController.java:582-587 | a padded clock reads back as its number of seconds |
| MainController.FormatDuration | src/main/java/com/liskovsoft/smarttube/desktop/ui/MainController.java:573-588 | "00:00" for any non-positive input; the label always reads back as the seconds, and as zero for a non-positive input |
| MainController.PaddedClockLayout | src/main/java/com/liskovsoft/smarttube/desktop/ui/MainController.java:582-587 | three fields when hours are positive, two otherwise; minutes and seconds have exactly two digits |
| MainController.FormatDurationLayout | src/main/java/com/liskovsoft/smarttube/desktop/ui/MainController.java:573-588 | "HH:MM:SS" from an hour up and "MM:SS" below, every field at least two digits, minutes and seconds exactly two and below 60 |
| MainController.Pad2Field | src/main/java/com/liskovsoft/smarttube/desktop/ui/MainController.java:583-585 | a `%02d` field of a non-negative number is at least two digits, exactly two below 100, and parses back |
| MainController.FormatDurationExample | src/main/java/com/liskovsoft/smarttube/desktop/ui/MainController.java:573-588 | 125 seconds are "02:05" |
| MainController.FormatViewCount | src/main/java/com/liskovsoft/smarttube/desktop/ui/MainController.java:590-600 | the controller renders every count as `Video.getFormattedViewCount` does, so its unit rule holds here too |
| MainController.ShownDescription | src/main/java/com/liskovsoft/smarttube/desktop/ui/MainController.java:511-519 | a null description shows as empty; up to 500 characters shows verbatim; a longer one shows its first 500 characters and "..." |
| MainController.VideoInfoLabels | src/main/java/com/liskovsoft/smarttube/desktop/ui/MainController.java:496-520 | "Unknown Title" and "Unknown Channel" for nulls; the views label blank exactly for non-positive counts, else the count with " views"; the upload date, or empty; the description cut to at most 503 characters |
| MainController.PositionOf | src/main/java/com/liskovsoft/smarttube/desktop/ui/MainController.java:426 | `indexOf`: the position of an equal entry with no equal entry before it, -1 exactly when none is equal |
| MainController.PositionOfEntry | src/main/java/com/liskovsoft/smarttube/desktop/ui/MainController.java:150 | in a playlist without duplicates, an entry's position is found again by `indexOf` |
| MainController.AppendKeepsDistinct | src/main/java/com/liskovsoft/smarttube/desktop/ui/MainController.java:422-424 | appending a video equal to no entry keeps the playlist free of duplicates |
| MainController.Swap | src/main/java/com/liskovsoft/smarttube/desktop/ui/MainController.java:398 | a shuffle swap exchanges entries i and j and leaves every other one and the length as they were |
| MainController.SwapPermutes | src/main/java/com/liskovsoft/smarttube/desktop/ui/MainController.java:398 | one shuffle swap keeps the same entries and keeps them distinct |
| MainController.ShuffleDown | src/main/java/com/liskovsoft/smarttube/desktop/ui/MainController.java:396-401 | the shuffle loop from position n down keeps the length and never touches positions from n on |
| MainController.Shuffled | src/main/java/com/liskovsoft/smarttube/desktop/ui/MainController.java:396-401 | `Collections.shuffle` yields a permutation of the playlist, of the same length, and keeps it free of duplicates |
| MainController.Playlist.constructor | src/main/java/com/liskovsoft/smarttube/desktop/ui/MainController.java:94 | the playlist starts empty with index -1 |
| MainController.Playlist.Clear | src/main/java/com/liskovsoft/smarttube/desktop/ui/MainController.java:389-393 | clearing empties the playlist and resets the index to -1 |
| MainController.Playlist.Previous | src/main/java/com/liskovsoft/smarttube/desktop/ui/MainController.java:278-285 | steps back only from a positive index and plays the new entry; the contents never change |
| MainController.Playlist.Next | src/main/java/com/liskovsoft/smarttube/desktop/ui/MainController.java:288-295 | steps forward only from a position before the last and plays the new entry; the contents never change |
| MainController.Playlist.Started | src/main/java/com/liskovsoft/smarttube/desktop/ui/MainController.java:421-427 | an absent video is appended and becomes current; a present one becomes current in place; duplicates never arise |
| MainController.Playlist.PlaybackLoaded | src/main/java/com/liskovsoft/smarttube/desktop/ui/MainController.java:412-429 | the format is chosen by quality; only when one is found is the video added or located and made current |
| MainController.Playlist.AddSelected | src/main/java/com/liskovsoft/smarttube/desktop/ui/MainController.java:549-556 | "Add to Playlist" appends the selected video only when it is absent, and leaves the index unchanged |
| MainController.Playlist.SelectEntry | src/main/java/com/liskovsoft/smarttube/desktop/ui/MainController.java:146-154 | a double click moves the index to the selected entry's position |
| MainController.Playlist.Shuffle | src/main/java/com/liskovsoft/smarttube/desktop/ui/MainController.java:396-401 | shuffling permutes the entries, keeps them distinct and leaves the index as it was |
| VideoGroups.CopyOrEmpty | src/main/java/com/liskovsoft/smarttube/desktop/model/VideoGroup.java:29 | a null list becomes empty, any other list is taken element for element |
| VideoGroups.VideoGroup.constructor | src/main/java/com/liskovsoft/smarttube/desktop/model/VideoGroup.java:18-20 | a new group has an empty, non-null list |
| VideoGroups.VideoGroup.Titled | src/main/java/com/liskovsoft/smarttube/desktop/model/VideoGroup.java:22-25 | the title constructor also starts with an empty, non-null list |
| VideoGroups.VideoGroup.WithVideos | src/main/java/com/liskovsoft/smarttube/desktop/model/VideoGroup.java:27-30 | the group holds a copy of the given list, empty for null |
| VideoGroups.VideoGroup.SetTitle | src/main/java/com/liskovsoft/smarttube/desktop/model/VideoGroup.java:37-39 | the title becomes the argument and no other field changes |
| VideoGroups.VideoGroup.SetId | src/main/java/com/liskovsoft/smarttube/desktop/model/VideoGroup.java:73-75 | the id becomes the argument and no other field changes |
| VideoGroups.VideoGroup.SetVideos | src/main/java/com/liskovsoft/smarttube/desktop/model/VideoGroup.java:53-55 | the group holds a copy of the given list, empty for null, and the list is non-null afterwards; title, id, subtitle, next-page key and auth flag are kept |
| VideoGroups.VideoGroup.AddVideo | src/main/java/com/liskovsoft/smarttube/desktop/model/VideoGroup.java:57-61 | a non-null video is appended at the end, existing entries unchanged; null is ignored; every other field is kept |
| VideoGroups.VideoGroup.AddVideos | src/main/java/com/liskovsoft/smarttube/desktop/model/VideoGroup.java:63-67 | all elements are appended in order; a null list changes nothing; every other field is kept |
| VideoGroups.VideoGroup.Clear | src/main/java/com/liskovsoft/smarttube/desktop/model/VideoGroup.java:101-105 | afterwards the size is 0 and the group is empty; every other field is kept |
| VideoGroups.VideoGroup.Size | src/main/java/com/liskovsoft/smarttube/desktop/model/VideoGroup.java:97-99 | the number of videos, 0 for a null list |
| VideoGroups.VideoGroup.IsEmpty | src/main/java/com/liskovsoft/smarttube/desktop/model/VideoGroup.java:93-95 | empty exactly when the size is 0 |
| VideoGroups.GroupHash | src/main/java/com/liskovsoft/smarttube/desktop/model/VideoGroup.java:133-136 | the hash is in int range and 0 for a group with neither id nor title |
| VideoGroups.VideoGroup.HashCode | src/main/java/com/liskovsoft/smarttube/desktop/model/VideoGroup.java:133-136 | the id's string hash when the id is set, else the title's, else 0 |
| VideoGroups.VideoGroup.Equals | src/main/java/com/liskovsoft/smarttube/desktop/model/VideoGroup.java:119-131 | a group equals itself, and equal groups whose ids are both set or both null hash alike |
| VideoGroups.GroupsEqual | src/main/java/com/liskovsoft/smarttube/desktop/model/VideoGroup.java:119-131 | equal groups whose ids are both set or both null have equal hash codes |
| VideoGroups.GroupsEqualReflexiveSymmetric | src/main/java/com/liskovsoft/smarttube/desktop/model/VideoGroup.java:119-131 | `equals` is reflexive and symmetric |
| VideoGroups.EqualGroupsHashApart | src/main/java/com/liskovsoft/smarttube/desktop/model/VideoGroup.java:126-135 | a group with an id and one without, sharing a title, are equal but hash differently |
| VideoGroups.GroupsEqualNotTransitive | src/main/java/com/liskovsoft/smarttube/desktop/model/VideoGroup.java:126-130 | two groups with different ids are each equal to an id-less group of the same title, but not to each other |
| VideoGroups.KeyOf | src/main/java/com/liskovsoft/smarttube/desktop/model/VideoGroup.java:126-130 | a group is identified by its id when set, else by its title |
| VideoGroups.GroupsEqualIntendedIsConsistent | src/main/java/com/liskovsoft/smarttube/desktop/model/VideoGroup.java:119-136 | key equality is an equivalence, agrees with `equals` when both ids are set or both null, and equal groups hash alike |
| BrowseView.CategoryTable | src/main/java/com/liskovsoft/smarttube/desktop/ui/BrowseViewController.java:199-226 | every category other than the five known ones gets the single group "Content" of 10; each category has one to three groups, each of positive size |
| BrowseView.CategoryGroupCounts | src/main/java/com/liskovsoft/smarttube/desktop/ui/BrowseViewController.java:199-226 | home and trending have 3 groups, subscriptions 2, library 3, history 2; "watch_later", "liked_videos" and "search" fall to the default |
| BrowseView.SampleVideo | src/main/java/com/liskovsoft/smarttube/desktop/ui/BrowseViewController.java:240-246 | a sample video has no id, duration, formats or stream URL |
| BrowseView.SampleVideos | src/main/java/com/liskovsoft/smarttube/desktop/ui/BrowseViewController.java:239-247 | exactly n videos, the k-th being sample video k |
| BrowseView.SampleTitlesDistinct | src/main/java/com/liskovsoft/smarttube/desktop/ui/BrowseViewController.java:241 | different positions in a group have different titles |
| BrowseView.SampleChannel | src/main/java/com/liskovsoft/smarttube/desktop/ui/BrowseViewController.java:242 | the channel is "Sample Channel " followed by a single digit from 1 to 5 |
| BrowseView.SampleViewCount | src/main/java/com/liskovsoft/smarttube/desktop/ui/BrowseViewController.java:244 | while the 32-bit product does not overflow, the count is 1,000,000 + 50,000 i |
| BrowseView.SampleViewsIncrease | src/main/java/com/liskovsoft/smarttube/desktop/ui/BrowseViewController.java:244 | view counts strictly increase with the position up to position 42949 |
| BrowseView.SampleViewsWrap | src/main/java/com/liskovsoft/smarttube/desktop/ui/BrowseViewController.java:244 | at position 42950 the `int` product wraps and the count turns negative |
| BrowseView.SampleDurationText | src/main/java/com/liskovsoft/smarttube/desktop/ui/BrowseViewController.java:243 | the duration text reads as (5 + i%10) minutes and (i%60) seconds, the seconds in two digits after the colon |
| BrowseView.CreateSampleVideoGroup | src/main/java/com/liskovsoft/smarttube/desktop/ui/BrowseViewController.java:235-251 | a new group titled as given, holding sample videos 1..n in order |
| BrowseView.LoadVideoSectionsForCategory | src/main/java/com/liskovsoft/smarttube/desktop/ui/BrowseViewController.java:195-233 | new groups in table order, each with the table's title and that many sample videos |
| BrowseView.FormatViewCount | src/main/java/com/liskovsoft/smarttube/desktop/ui/BrowseViewController.java:336-344 | plain digits exactly below 1000, parsing back to the count; "K" below a million and "M" from a million up, scaled by their unit |
| BrowseView.FormatViewCountAgrees | src/main/java/com/liskovsoft/smarttube/desktop/ui/BrowseViewController.java:336-344 | the card's count equals the video model's below a billion; from a billion on the card keeps "M" where the model uses "B" |
| BrowseView.FormatVideoInfo | src/main/java/com/liskovsoft/smarttube/desktop/ui/BrowseViewController.java:322-334 | empty exactly when the count is not positive and the duration text is null or empty; the views part only for positive counts; the separator only when both parts are present |
| BrowseView.SearchResultsTitle | src/main/java/com/liskovsoft/smarttube/desktop/ui/BrowseViewController.java:357 | the fixed prefix, then exactly the query, then a closing quote |
| BrowseView.PerformSearch | src/main/java/com/liskovsoft/smarttube/desktop/ui/BrowseViewController.java:351-358 | one new group titled after the query with 15 sample videos |
| BrowseView.Browser.constructor | src/main/java/com/liskovsoft/smarttube/desktop/ui/BrowseViewController.java:54 | the view opens on "home" |
| BrowseView.Browser.SelectCategory | src/main/java/com/liskovsoft/smarttube/desktop/ui/BrowseViewController.java:89-136 | a sidebar button records its category and loads that category's groups |
| BrowseView.Browser.OnSearch | src/main/java/com/liskovsoft/smarttube/desktop/ui/BrowseViewController.java:146-153 | a query that trims to nothing changes nothing; otherwise the section becomes "search" and the trimmed query is searched |
| VideoListCells.ChannelLabel | src/main/java/com/liskovsoft/smarttube/desktop/ui/VideoListCell.java:90 | the channel name, "Unknown Channel" when it is null |
| VideoListCells.DurationLabel | src/main/java/com/liskovsoft/smarttube/desktop/ui/VideoListCell.java:92-96 | empty exactly for a null or zero duration; otherwise the video's formatted duration, which reads back as the seconds when positive |
| VideoListCells.FormatViewCount | src/main/java/com/liskovsoft/smarttube/desktop/ui/VideoListCell.java:155-165 | plain digits exactly below 1000, parsing back to the count; otherwise suffix K, M or B, K exactly below a million and B exactly from a billion, each with its divisor 1e3, 1e6 or 1e9, at most the count |
| VideoListCells.FormatViewCountAgrees | src/main/java/com/liskovsoft/smarttube/desktop/ui/VideoListCell.java:155-165 | the row renders every count as `Video.getFormattedViewCount` does |
| VideoListCells.ViewsLabel | src/main/java/com/liskovsoft/smarttube/desktop/ui/VideoListCell.java:99-103 | blank exactly for non-positive counts, otherwise the count followed by " views" |
| VideoListCells.FormatDuration | src/main/java/com/liskovsoft/smarttube/desktop/ui/VideoListCell.java:139-153 | empty exactly for non-positive seconds; otherwise a clock text that reads back as the seconds |
| VideoListCells.FormatDurationIsClockText | src/main/java/com/liskovsoft/smarttube/desktop/ui/VideoListCell.java:139-153 | for positive seconds the row's formatter writes the same text as `Video.getFormattedDuration` |
| VideoListCells.VideoListCell.constructor | src/main/java/com/liskovsoft/smarttube/desktop/ui/VideoListCell.java:45-75 | a new row has blank labels and shows its content |
| VideoListCells.VideoListCell.UpdateItem | src/main/java/com/liskovsoft/smarttube/desktop/ui/VideoListCell.java:80-109 | an empty row or null video hides the graphic and keeps every label; otherwise title, channel, duration and views are rewritten by the label rules and the graphic is shown |

## Left out

- The NewPipe extractor, the network and `CompletableFuture`. Extracted stream info and search pages are inputs. `getStreamUrl` starts from the video `getVideoDetails` returns.
- The digits of every `%.1f` rendering (K/M/B counts, Kbps/Mbps, KB/MB/GB). `Text.Shown.OneDecimal` keeps the numerator, the divisor and the suffix.
- The controller's `formatDuration` takes a `double`, and its cast to `long` is not modelled. The argument is an integer number of seconds.
- The upload-date formatting through `DateTimeFormatter.ISO_LOCAL_DATE` is a library call. The date arrives already formatted.
- JavaFX: images, thumbnails, styles, selection models, status texts, alerts, the video player and the key and mouse handlers. `Thread.sleep` in `hideControlsDelayed` is left out too.
- `VideoPlayer.java`, `DownloaderImpl.java` and the application, preloader, main-view and sidebar controllers are not part of this model.
- Shuffle randomness: `Collections.shuffle` is driven by a `draws` input. Only the order of swaps matches Java's; the permutation property is what is proved.
- Formats lists hold no null elements, and stream descriptors have non-null resolutions and formats.
- The quality request is never null: the combo box is always set to "Auto" (MainController.java:106-107).
- `VideoGroup.getVideos` returns the live list, so callers can change it directly. That aliasing is not modelled; groups hold values.
- The values the `Video` records reference are shared by reference in Java. The model copies them, so aliasing between records is not captured.
- Negative view and like counts are not clamped, and there is no metadata-error path. The code has neither, so neither is modelled.
- Quality matching removes every 'p' from the request (`replace("p", "")`), not only a trailing one. The model follows the code.
- The settings button loads an FXML view and is not modelled. `Browser.SelectCategory` covers the other sidebar buttons.
- The `try`/`catch` in `loadVideoSectionsForCategory` never fires on the modelled path.
- BrowseView.CreateSampleVideoGroup: requires a count below `Integer.MAX_VALUE`. The Java loop counter would wrap at that value. All callers pass 5 to 25.
- VideoListCells.VideoListCell.UpdateItem: the thumbnail load (`loadThumbnail`) is not modelled.
- Text.StringHash: hashes Dafny characters, which are code points. Java hashes UTF-16 units, so the two differ for text outside the Basic Multilingual Plane.
- MainController.ShownDescription: the 500-character cut counts code points. Java counts UTF-16 units, so a description with characters outside the Basic Multilingual Plane is cut at a different place, and Java can split a surrogate pair.
- `VideoGroup.toString`, `Video.toString` and `VideoFormat.toString` are debugging texts and are left out.

## Findings

| source | as written | input that shows it | evidently intended | confidence | as-written member | corrected member |
|---|---|---|---|---|---|---|
| src/main/java/com/liskovsoft/smarttube/desktop/service/YouTubeService.java:104-113 | the "video streams with audio" loop sets only `hasVideo`, so no format is ever combined, and `selectBestFormat` always plays the list's head whatever quality is chosen | one 360p and one 720p muxed stream, quality "720p": plays the 360p one | muxed streams get `hasAudio = true`, and the chosen quality selects the matching stream | not executed | MainController.QualityIgnoredExample | MainController.IntendedFormatsHonourQuality |
| src/main/java/com/liskovsoft/smarttube/desktop/ui/MainController.java:462-465 | `loadVideoDetails` passes a full watch URL to `getVideoDetails`, which prefixes it again (YouTubeService.java:75) | id "abc": the extractor is asked for `https://www.youtube.com/watch?v=https://www.youtube.com/watch?v=abc` | pass the bare id | not executed | MainController.DetailsUrlDoubled | MainController.DetailsUrlIntended |
| src/main/java/com/liskovsoft/smarttube/desktop/model/VideoGroup.java:119-136 | `equals` falls back to titles when only one id is set, but `hashCode` uses the id whenever it is set | ("a", "T") and (null, "T"): equal, hash codes 97 and 84; also non-transitive with ("b", "T") | compare by one key (the id when set, else the title), consistent with the hash | not executed | VideoGroups.EqualGroupsHashApart | VideoGroups.GroupsEqualIntendedIsConsistent |

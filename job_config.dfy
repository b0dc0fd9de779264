/**
 * The second half of `download_video`: the quality choice, the full or
 * trimmed download, and the option record handed to the downloader.
 */
module JobConfig {
  import opened Wrappers
  import opened Text
  import opened TimeCodec
  import opened SizeEstimator
  import opened QualityCatalog

  /** What the quality prompt leads to. */
  datatype Selection =
    | Cancelled            // blank answer: the flow returns without a message
    | NotAnInteger         // `int(q_choice)` raises; reported as a fetch error
    | InvalidSelection     // a number that is not on the menu
    | Selected(height: int)

  /** Lines 122-127: blank input cancels, a number on the menu picks its height. */
  function SelectQuality(choice: string, options: map<int, int>): Selection {
    if Strip(choice) == "" then Cancelled
    else
      match ParseInt(choice)
      case None => NotAnInteger
      case Some(k) => if k in options && options[k] != 0 then Selected(options[k]) else InvalidSelection
  }

  /**
   * On a menu numbered from the highest height down, typing the number `k`
   * picks the `k`-th height, and every other number is rejected.
   */
  lemma SelectByNumber(k: int, options: map<int, int>, heights: seq<int>)
    requires NumberedByHeight(options, heights) && 0 !in heights
    ensures 1 <= k <= |heights| ==> SelectQuality(IntToString(k), options) == Selected(heights[k - 1])
    ensures !(1 <= k <= |heights|) ==> SelectQuality(IntToString(k), options) == Selection.InvalidSelection
  {
    IntToStringText(k);
    SelectParsed(IntToString(k), k, options, heights);
  }

  lemma SelectParsed(choice: string, k: int, options: map<int, int>, heights: seq<int>)
    requires NumberedByHeight(options, heights) && 0 !in heights
    requires Strip(choice) != "" && ParseInt(choice) == Some(k)
    ensures 1 <= k <= |heights| ==> SelectQuality(choice, options) == Selected(heights[k - 1])
    ensures !(1 <= k <= |heights|) ==> SelectQuality(choice, options) == Selection.InvalidSelection
  {
    if 1 <= k <= |heights| {
      assert heights[k - 1] in heights;
    }
  }

  /** The answer `k` typed with a leading space and a trailing newline selects as `k` does. */
  lemma SelectPadded(k: int, options: map<int, int>, heights: seq<int>)
    requires NumberedByHeight(options, heights) && 0 !in heights && 1 <= k <= |heights|
    ensures SelectQuality(" " + IntToString(k) + "\n", options) == Selected(heights[k - 1])
  {
    var answer := " " + IntToString(k) + "\n";
    IntToStringText(k);
    StripPadding(" ", IntToString(k), "\n");
    ParseIntPadding(" ", IntToString(k), "\n");
    SelectParsed(answer, k, options, heights);
  }

  /** Only heights that are on the menu can be selected. */
  lemma SelectedIsOffered(choice: string, options: map<int, int>)
    requires SelectQuality(choice, options).Selected?
    ensures exists k :: k in options && options[k] == SelectQuality(choice, options).height
  {
    var k := ParseInt(choice).value;
    assert k in options;
  }

  /**
   * Lines 136-151: a range is kept only in trim mode and only when both
   * timestamps parse; otherwise both ends fall back to `None` and the
   * whole video is fetched. A start of 0 is a present start.
   */
  method DecideTrim(mode: string, startText: string, endText: string) returns (start: Option<int>, end: Option<int>)
    ensures start.Some? <==> end.Some?
    ensures start.Some? <==>
      Strip(mode) == "2" && TimestampToSeconds(startText).Some? && TimestampToSeconds(endText).Some?
    ensures start.Some? ==> start == TimestampToSeconds(startText) && end == TimestampToSeconds(endText)
    ensures TrimRange(mode, startText, endText) ==
      (if start.Some? then Some(TimeRange(start.value, end.value)) else None)
  {
    start := None;
    end := None;
    if Strip(mode) == "2" {
      start := TimestampToSeconds(startText);
      end := TimestampToSeconds(endText);
      if start.None? || end.None? {
        start := None;
        end := None;
      }
    }
  }

  /** The one element of the `download_ranges` callback's answer. */
  datatype TimeRange = TimeRange(startTime: int, endTime: int)

  /** The range the answers ask for: both ends, in trim mode, when both parse. */
  function TrimRange(mode: string, startText: string, endText: string): Option<TimeRange> {
    var s, e := TimestampToSeconds(startText), TimestampToSeconds(endText);
    if Strip(mode) == "2" && s.Some? && e.Some? then Some(TimeRange(s.value, e.value)) else None
  }

  /** Trimming from "1:00" to "2:30" asks for seconds 60 to 150. */
  lemma TrimExample(mode: string, startText: string, endText: string)
    requires mode == "2" && startText == "1:00" && endText == "2:30"
    ensures TrimRange(mode, startText, endText) == Some(TimeRange(60, 150))
  {
    StripUnchanged(mode);
    ParseOneMinute(startText);
    ParseTwoMinutesThirty(endText);
  }

  /** A start that is not a timestamp drops the range: the whole video is fetched. */
  lemma BadStartFetchesAll(mode: string, startText: string, endText: string)
    requires startText == "bad"
    ensures TrimRange(mode, startText, endText).None?
  {
    ParseBad(startText);
  }

  /** The `ydl_opts` dictionary; the `merger` list of `postprocessor_args` is `mergerArgs`. */
  datatype YdlOptions = YdlOptions(
    format: string,
    outtmpl: string,
    mergeOutputFormat: string,
    quiet: bool,
    downloadRanges: Option<TimeRange>,
    forceKeyframesAtCuts: bool,
    mergerArgs: Option<seq<string>>)

  const OutputTemplate: string := "%(title)s_%(height)sp.%(ext)s"

  /** H.264 at CRF 28 with the fast preset, AAC audio at 128k. */
  const EncoderArgs: seq<string> :=
    ["-c:v", "libx264", "-crf", "28", "-preset", "fast", "-c:a", "aac", "-b:a", "128k"]

  function HeightFilter(height: int): string {
    "[height=" + IntToString(height) + "]"
  }

  /** Best video at the height plus best audio, else the best single stream at that height. */
  function FormatSelector(height: int): string {
    "bestvideo" + HeightFilter(height) + "+bestaudio/best" + HeightFilter(height)
  }

  /**
   * The selector has exactly two '/'-separated alternatives, and both are
   * pinned to the selected height, written so that it reads back as that
   * height.
   */
  lemma FormatSelectorAlternatives(height: int)
    ensures Split(FormatSelector(height), '/') ==
      ["bestvideo" + HeightFilter(height) + "+bestaudio", "best" + HeightFilter(height)]
    ensures ParseInt(IntToString(height)) == Some(height)
  {
    IntToStringText(height);
    var a := "bestvideo" + HeightFilter(height) + "+bestaudio";
    var b := "best" + HeightFilter(height);
    FilterHasNoSlash(height);
    assert NoSep(a, '/') && NoSep(b, '/');
    assert FormatSelector(height) == Join([a, b], '/');
    SplitJoin([a, b], '/');
  }

  lemma FilterHasNoSlash(height: int)
    ensures NoSep(HeightFilter(height), '/')
  {
    IntToStringChars(height);
    assert NoSep(IntToString(height), '/');
  }

  /**
   * Lines 162-187: the options dictionary built step by step. The range and
   * the keyframe flag are set exactly when both ends are present (with no
   * check that start precedes end); the encoder arguments exactly when
   * compression was asked for.
   */
  method AssembleOptions(height: int, start: Option<int>, end: Option<int>, compress: bool)
    returns (opts: YdlOptions)
    ensures opts.format == FormatSelector(height)
    ensures opts.outtmpl == OutputTemplate && opts.mergeOutputFormat == "mp4" && !opts.quiet
    ensures opts.downloadRanges.Some? <==> start.Some? && end.Some?
    ensures opts.downloadRanges.Some? ==>
      opts.downloadRanges.value == TimeRange(start.value, end.value)
    ensures opts.forceKeyframesAtCuts <==> opts.downloadRanges.Some?
    ensures opts.mergerArgs.Some? <==> compress
    ensures opts.mergerArgs.Some? ==> opts.mergerArgs.value == EncoderArgs
  {
    opts := YdlOptions(FormatSelector(height), OutputTemplate, "mp4", false, None, false, None);
    if start.Some? && end.Some? {
      opts := opts.(downloadRanges := Some(TimeRange(start.value, end.value)));
      opts := opts.(forceKeyframesAtCuts := true);
    }
    if compress {
      opts := opts.(mergerArgs := Some(EncoderArgs));
    }
  }

  /** What `extract_info` returns, reduced to what the flow reads. */
  datatype Info = Info(duration: Option<nat>, formats: seq<Format>)

  datatype FlowOutcome =
    | FetchError              // "Error fetching info": extraction failed or the choice was not a number
    | ChoiceCancelled         // blank quality answer
    | ChoiceInvalid           // "Invalid selection."
    | Download(url: string, opts: YdlOptions)

  /**
   * `download_video` from the metadata to the download call, with the
   * user's answers as parameters. `menu` is the list of heights shown,
   * highest first; answer `k` selects `menu[k - 1]`.
   */
  method DownloadFlow(url: string, info: Option<Info>, qChoice: string, mode: string,
                      startText: string, endText: string, compress: bool)
    returns (outcome: FlowOutcome, menu: seq<int>)
    ensures info.None? ==> (outcome == FetchError && menu == [])
    ensures info.Some? ==>
      (StrictlyDescending(menu) && forall h :: h in menu <==> h in VideoHeights(info.value.formats))
    ensures (info.Some? && Strip(qChoice) == "") ==> outcome == ChoiceCancelled
    ensures (info.Some? && Strip(qChoice) != "" && ParseInt(qChoice).None?) ==> outcome == FetchError
    ensures (info.Some? && Strip(qChoice) != "" && ParseInt(qChoice).Some?
             && !(1 <= ParseInt(qChoice).value <= |menu|)) ==> outcome == ChoiceInvalid
    ensures (info.Some? && Strip(qChoice) != "" && ParseInt(qChoice).Some?
             && 1 <= ParseInt(qChoice).value <= |menu|) ==>
      (&& outcome.Download? && outcome.url == url
       && outcome.opts.format == FormatSelector(menu[ParseInt(qChoice).value - 1])
       && outcome.opts.downloadRanges == TrimRange(mode, startText, endText)
       && outcome.opts.forceKeyframesAtCuts == outcome.opts.downloadRanges.Some?
       && outcome.opts.outtmpl == OutputTemplate && outcome.opts.mergeOutputFormat == "mp4"
       && !outcome.opts.quiet
       && (outcome.opts.mergerArgs.Some? <==> compress)
       && (outcome.opts.mergerArgs.Some? ==> outcome.opts.mergerArgs.value == EncoderArgs))
  {
    menu := [];
    if info.None? {
      return FetchError, menu;
    }
    var duration := info.value.duration;
    var audioMB, sizes, heights, options, labels := QualityMenu(info.value.formats, duration);
    menu := heights;
    assert 0 !in VideoHeights(info.value.formats);
    match SelectQuality(qChoice, options) {
      case Cancelled =>
        return ChoiceCancelled, menu;
      case NotAnInteger =>
        return FetchError, menu;
      case InvalidSelection =>
        return ChoiceInvalid, menu;
      case Selected(height) =>
        var start, end := DecideTrim(mode, startText, endText);
        var opts := AssembleOptions(height, start, end, compress);
        return Download(url, opts), menu;
    }
  }

  /**
   * Formats at heights 720 and 480, answer "1" and a full download: the
   * job targets 720, with no range and no re-encoding.
   */
  method FullDownloadExample(url: string, formats: seq<Format>, qChoice: string, mode: string)
    returns (outcome: FlowOutcome)
    requires |formats| == 2 && IsVideo(formats[0]) && IsVideo(formats[1])
    requires formats[0].height == Some(720) && formats[1].height == Some(480)
    requires qChoice == "1" && mode == "1"
    ensures outcome.Download? && outcome.url == url
    ensures outcome.opts.format == FormatSelector(720)
    ensures outcome.opts.downloadRanges.None? && !outcome.opts.forceKeyframesAtCuts
    ensures outcome.opts.mergerArgs.None?
  {
    var menu;
    outcome, menu := DownloadFlow(url, Some(Info(Some(600), formats)), qChoice, mode, "", "", false);
    forall h ensures h in menu <==> h in [720, 480] {
      if h in VideoHeights(formats) {
        var i :| 0 <= i < |formats| && IsVideo(formats[i]) && formats[i].height.value == h;
        assert i == 0 || i == 1;
      }
      if h in [720, 480] {
        var i := if h == 720 then 0 else 1;
        assert IsVideo(formats[i]) && formats[i].height.value == h;
      }
    }
    DescendingUnique(menu, [720, 480]);
    AnswerOne(qChoice);
    AnswerOne(mode);
  }

  /** The answer "1" is not blank, reads as the number 1 and is not the trim answer. */
  lemma AnswerOne(answer: string)
    requires answer == "1"
    ensures Strip(answer) == "1" && ParseInt(answer) == Some(1)
  {
    IntToStringText(1);
    assert IntToString(1) == answer;
  }
}

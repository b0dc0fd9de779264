# Ultimate downloader & trimmer — a Dafny model of its core

`downloader.py` is a console front end to `yt-dlp` and `ffmpeg`. It asks for a
video link, reads the video's metadata, offers the available heights with an
estimated download size, lets the user pick one, optionally trims the video
to a start and end time, optionally re-encodes it at a smaller size, and
hands the resulting options to `yt-dlp`. A second menu entry re-encodes a
file already on disk.

This project models the decision logic of that program and proves what it
promises:

- `SizeEstimator`: `get_size_mb`, the size estimate of one stream (exact
  size, else approximate size, else bitrate × duration, else 0).
- `TimeCodec`: `format_seconds` and `timestamp_to_seconds`, the clock
  renderer and parser, with the round trip between them.
- `QualityCatalog`: lines 98-120 of `download_video`. It picks the best
  audio stream, builds the height → size table, sorts the heights, and numbers
  and labels the options.
- `JobConfig`: lines 122-187 of `download_video`. It covers the quality
  answer, the trim decision, the format selector and the `ydl_opts`
  dictionary, and it composes everything in `DownloadFlow`.
- `LocalCompress`: the output path and encoder command of
  `compress_local_file`.
- `Menu`: one pass of `main_menu` as a mapping from answers to an action.
- `Text` and `Wrappers`: `str.strip`, `str.split`, `str.join`, Python's
  `int()` on a token and `f"{n}"`, plus an `Option` type.

The user's answers at each prompt, the metadata returned by the extractor and
the file chosen in the file picker are parameters. Outcomes that the program
shows as printed messages are values of result datatypes (`FlowOutcome`,
`LocalOutcome`, `Action`).

Where the code and its comments disagree, the model follows the code:
`format_seconds` renders 312 seconds as `5:12`, not `05:12` as its docstring
says, because the leading field is not padded.

Two further facts about the code that the model states:

- A quality label keeps the size suffix only when the estimate is positive
  (`size > 0`, line 118).
- `timestamp_to_seconds(format_seconds(t)) == t` holds for every positive
  whole `t`, `H:MM:SS` renderings included.

## Model

| member | source | states |
|---|---|---|
| Text.Strip | downloader.py:34 | the stripped text neither starts nor ends with whitespace (any character `str.isspace` accepts), and is no longer than the text |
| Text.StripUnchanged | downloader.py:34 | a text that neither starts nor ends with whitespace is left as it is |
| Text.StripPadding | downloader.py:34 | whitespace added at either end makes no difference; with `StripUnchanged` this pins the result down to the text between the outer whitespace |
| Text.StripNumber | downloader.py:34 | the whitespace `int()` skips is gone from both ends, and the text is no longer; with `Text.StripNumberPadding` and `Text.StripNumberUnchanged` the result is exactly the text between that outer whitespace |
| Text.StripNumberUnchanged | downloader.py:34 | a token with no such whitespace at either end is left as it is |
| Text.StripNumberPadding | downloader.py:34 | whitespace that `int()` skips, added at either end, makes no difference to its trimming |
| Text.ParseIntPadding | downloader.py:34 | `int()` reads a token the same with or without such whitespace around it |
| Text.ParseInt | downloader.py:34 | contract stated by `Text.ParseIntToString`, `Text.IntToStringText`, `Text.WideSpaceAroundNumber` and `Text.FileSeparatorIsNotNumberSpace` |
| Text.FileSeparatorIsNotNumberSpace | downloader.py:34 | U+001C before a digit is stripped by `str.strip()`, yet `int()` rejects the token |
| Text.WideSpaceAroundNumber | downloader.py:34 | `int()` reads a digit padded with an ideographic space and a no-break space |
| Text.Split | downloader.py:34 | the pieces, re-joined with the separator, give back the text, and no piece holds the separator |
| Text.SplitJoin | downloader.py:34 | splitting a join of separator-free pieces returns exactly those pieces |
| Text.NatToStringDigits | downloader.py:28-29 | `f"{n}"` is a run of digits with no leading zero whose value is `n` |
| Text.NatToString | downloader.py:28-29 | contract stated by `Text.NatToStringDigits` |
| Text.IntToString | downloader.py:28-29 | contract stated by `Text.IntToStringText` and `Text.ParseIntToString` |
| Text.ParseIntToString | downloader.py:34 | `int()` reads back every integer written by `f"{n}"` |
| Text.IntToStringText | downloader.py:124 | a written integer reads back, needs no stripping, is non-empty and holds only digits and '-' |
| TimeCodec.Pad2 | downloader.py:28-29 | `:02d` gives exactly two digits below 100, and they denote `n` |
| TimeCodec.FormatSeconds | downloader.py:22-29 | contract stated by `TimeCodec.FormatSecondsShort`, `TimeCodec.FormatSecondsLong`, `TimeCodec.FormatExamples` and `TimeCodec.RoundTrip` |
| TimeCodec.TimestampToSeconds | downloader.py:31-43 | contract stated by `TimeCodec.TimestampFields`, `TimeCodec.BadFieldFails`, `TimeCodec.ManyFieldsGiveZero` and `TimeCodec.RoundTrip` |
| TimeCodec.ParseAll | downloader.py:34 | contract stated by `TimeCodec.ParseAllSpec` |
| TimeCodec.FormatSecondsShort | downloader.py:22-29 | below an hour the rendering is unpadded minutes and two-digit seconds under 60, and they add up to the duration |
| TimeCodec.FormatSecondsLong | downloader.py:22-29 | from an hour on the rendering is non-zero unpadded hours, two-digit minutes and two-digit seconds, and they add up to the duration |
| TimeCodec.FormatExamples | downloader.py:22-29 | 312 renders as `5:12`, 3661 as `1:01:01`, and 0 or no duration as `Unknown` |
| TimeCodec.RoundTrip | downloader.py:22-43 | parsing the rendering of any positive duration gives that duration back |
| TimeCodec.UnknownDoesNotParse | downloader.py:22-43 | the `Unknown` rendering of a missing duration is rejected by the parser |
| TimeCodec.ReadClock | downloader.py:31-41 | a text made of ':'-separated digit runs reads as their clock value |
| TimeCodec.ParseAllSpec | downloader.py:34 | `list(map(int, parts))` succeeds iff every piece is an integer, and it keeps their number and order |
| TimeCodec.TimestampFields | downloader.py:31-41 | integer pieces read as SS, MM:SS or HH:MM:SS (largest unit first), and as 0 for four or more pieces |
| TimeCodec.BadFieldFails | downloader.py:33-43 | one piece that is not an integer makes the whole timestamp fail |
| TimeCodec.ManyFieldsGiveZero | downloader.py:41 | four or more integer pieces give 0, not a failure |
| TimeCodec.NotANumber | downloader.py:42-43 | a single non-integer token fails |
| TimeCodec.ParseFailures | downloader.py:42-43 | the empty text and `abc` fail |
| TimeCodec.ParseExampleShort | downloader.py:37-38 | `1:30` is 90 seconds |
| TimeCodec.ParseExampleLong | downloader.py:35-36 | `0:01:30` is 90 seconds |
| TimeCodec.ParseOneMinute | downloader.py:37-38 | `1:00` is 60 seconds |
| TimeCodec.ParseTwoMinutesThirty | downloader.py:37-38 | `2:30` is 150 seconds |
| TimeCodec.ParseBad | downloader.py:42-43 | `bad` fails |
| TimeCodec.SeparatorInsideTimestamp | downloader.py:31-43 | `1:` followed by U+001C and `30` fails, since `int()` does not skip U+001C |
| SizeEstimator.BitrateBytes | downloader.py:17-18 | a positive bitrate over a positive duration streams a positive number of bytes |
| SizeEstimator.SizeMB | downloader.py:11-20 | for non-negative metadata the estimate is never negative, and it is positive exactly when a size is declared or can be derived from bitrate and duration |
| SizeEstimator.SizePrecedence | downloader.py:13-17 | once a field is set and non-zero, the fields after it in the precedence do not matter |
| SizeEstimator.ZeroFallsThrough | downloader.py:13-17 | a field holding 0, or a duration of 0, acts as a missing one |
| SizeEstimator.SizeExamples | downloader.py:13-20 | 104857600 declared bytes are 100 MB, 1000 kbit/s over 800 s is 100000000/1048576 MB, and no metadata gives 0 |
| QualityCatalog.BestAudio | downloader.py:99-101 | no result iff there is no audio-only stream; otherwise an audio-only stream of greatest rank, the first of equals |
| QualityCatalog.BestAudioSize | downloader.py:98-102 | 0 without audio-only streams, otherwise the estimate of an audio-only stream of greatest rank that no earlier audio-only stream matches |
| QualityCatalog.Resolutions | downloader.py:104-111 | the keys are exactly the heights of video streams, and each value is the largest combined estimate at that height |
| QualityCatalog.InsertDescending | downloader.py:113 | inserting a new height keeps the list strictly descending, adds exactly that height and grows the list by one |
| QualityCatalog.SortedHeights | downloader.py:113 | the sorted keys are strictly descending and are exactly the table's heights |
| QualityCatalog.DistinctCount | downloader.py:113 | a strictly descending list has no repeats |
| QualityCatalog.KthHighest | downloader.py:113-120 | the `k`-th entry of the menu has exactly `k` offered heights at or above it |
| QualityCatalog.DescendingUnique | downloader.py:113 | two strictly descending lists with the same heights are equal, so the menu order is fully determined |
| QualityCatalog.MakeLabel | downloader.py:118 | the label carries the height, and the size exactly when the size is positive |
| QualityCatalog.NumberOptions | downloader.py:115-120 | options are numbered 1..N, option `k` is the `k`-th height, and each has its height's label |
| QualityCatalog.VideoHeightsSpec | downloader.py:106-107 | a height is offered iff some stream with a video codec has that (non-zero) height |
| QualityCatalog.QualityMenu | downloader.py:98-120 | the audio size is 0 without audio-only streams and otherwise the estimate of the first audio-only stream of greatest rank; the numbered menu covers exactly the video heights, highest first, each labelled with its table size, the largest combined estimate |
| QualityCatalog.ExampleHeights | downloader.py:104-111 | streams at heights 1080, 1080, 720 and 480 offer exactly 1080, 720 and 480 |
| QualityCatalog.CatalogExample | downloader.py:104-113 | heights 1080, 1080, 720 and 480 give the menu 1080, 720, 480, and the 1080 size is the larger of the two 1080 estimates |
| JobConfig.SelectQuality | downloader.py:122-127 | contract stated by `JobConfig.SelectByNumber`, `JobConfig.SelectParsed` and `JobConfig.SelectedIsOffered` |
| JobConfig.SelectByNumber | downloader.py:122-127 | answer `k` selects the `k`-th height of the menu when `1 <= k <= N`, and is an invalid selection otherwise |
| JobConfig.SelectParsed | downloader.py:122-127 | any non-blank answer that reads as `k` selects as `k` does |
| JobConfig.SelectPadded | downloader.py:122-127 | the answer `k` typed after a space and followed by a newline selects the `k`-th height as `k` does |
| JobConfig.SelectedIsOffered | downloader.py:124-127 | only heights on the menu can be selected |
| JobConfig.AnswerOne | downloader.py:122-134 | the answer `1` is not blank, reads as 1, and is not the trim answer |
| JobConfig.DecideTrim | downloader.py:134-153 | both ends are set or neither is; they are set iff the mode is `2` and both timestamps parse, and then they are the parsed values, which is the range `TrimRange` describes |
| JobConfig.TrimRange | downloader.py:136-151 | contract stated by `JobConfig.DecideTrim`, `JobConfig.TrimExample` and `JobConfig.BadStartFetchesAll` |
| JobConfig.TrimExample | downloader.py:136-153 | trimming from `1:00` to `2:30` asks for seconds 60 to 150 |
| JobConfig.BadStartFetchesAll | downloader.py:145-151 | a start that does not parse drops the range |
| JobConfig.FormatSelector | downloader.py:162 | contract stated by `JobConfig.FormatSelectorAlternatives` |
| JobConfig.FormatSelectorAlternatives | downloader.py:162 | the selector has exactly two '/'-separated alternatives, both pinned to the selected height, written so that it reads back |
| JobConfig.AssembleOptions | downloader.py:162-187 | the fixed entries; a range and the keyframe flag exactly when both ends are present; the encoder arguments exactly when compression is asked for |
| JobConfig.DownloadFlow | downloader.py:86-187 | no metadata fails; the menu is the video heights, highest first; a blank answer cancels, a non-number fails, an out-of-range number is invalid, and `k` downloads `menu[k-1]` with the trim range, the fixed template, `mp4` merging, `quiet` off, and the encoder arguments exactly when compressing |
| JobConfig.FullDownloadExample | downloader.py:98-187 | heights 720 and 480, answer `1` and a full download target 720 with no range, no keyframe forcing and no re-encoding |
| LocalCompress.LastSep | downloader.py:62 | the index of the last path separator, with none after it |
| LocalCompress.LastDot | downloader.py:62 | the index of the last dot, with none after it |
| LocalCompress.SplitExt | downloader.py:62 | base and extension concatenate to the path; the extension is empty or one dot followed by no dot and no separator; it is non-empty iff the last component has a dot after some non-dot character, and then it starts at the last dot |
| LocalCompress.SplitExtWindowsPath | downloader.py:62 | `C:\v\clip.mp4` splits into `C:\v\clip` and `.mp4` |
| LocalCompress.SplitExtDotFile | downloader.py:62 | `.profile` has no extension |
| LocalCompress.SplitExtDotInFolder | downloader.py:62 | `a.d/f` has no extension: the dot is in a folder name |
| LocalCompress.CompressedPath | downloader.py:62-63 | contract stated by `LocalCompress.CompressedKeepsExtension`, `LocalCompress.NoExtensionCompressed` and `LocalCompress.ExtensionCompressed` |
| LocalCompress.NoExtensionCompressed | downloader.py:62-63 | a path without an extension gets the suffix at the end and still has no extension |
| LocalCompress.ExtensionCompressed | downloader.py:62-63 | a path with an extension gets the suffix before it, and the same extension is found again |
| LocalCompress.CompressedKeepsExtension | downloader.py:62-63 | the output has the input's extension and the input's base plus `_compressed`, and it never equals the input |
| LocalCompress.EncoderCommand | downloader.py:67-72 | `ffmpeg -i <input>`, the same encoder settings as a compressed download, then the output path |
| LocalCompress.CompressLocal | downloader.py:57-75 | nothing happens iff no file is selected; otherwise the encoder runs on the file with the compressed output path |
| Menu.MainMenu | downloader.py:198-233 | `3` quits, anything but `1`/`2`/`3` is invalid, `2`+`2` compresses a local file, and a download starts iff the link is non-empty under `1` or `2`+`1`, compressing iff under `2` |
| Menu.StripIdempotent | downloader.py:206 | stripping twice is stripping once |
| Menu.MenuIgnoresPadding | downloader.py:206-220 | answers that differ only in surrounding whitespace choose the same action |
| Menu.PaddedExit | downloader.py:206-231 | a `3` typed with surrounding whitespace still quits, non-ASCII whitespace (a no-break space, an ideographic space) included, since `str.strip()` removes every `str.isspace` character |

## Left out

- Input and output are not modelled: the prompts, the printed lines, the title and duration display, and the "Press Enter" pause. Answers are parameters, and results are datatype values.
- `yt-dlp` itself is not modelled. A failed `extract_info` is `info == None` and becomes the `FetchError` outcome; the download call is the `Download(url, opts)` outcome.
- Other exceptions inside the metadata block are not modelled. One example is a metadata record without a `formats` key. The model's formats are always a list.
- The `tkinter` file picker and the `ffmpeg` subprocess are not modelled. The picked path is a parameter. Running the command, and its success or failure, are outside the model.
- The outer `while True` loop, `KeyboardInterrupt` and `sys.exit` are not modelled. `Menu.MainMenu` is one pass, and exiting is the `Quit` action.
- The `ydl_opts_info` dictionary (`quiet`, `no_warnings`) is not modelled, because it only silences the extractor.
- `download_ranges` is a callback in the program. The model keeps the one range that it returns as a `TimeRange` value.
- SizeEstimator.SizeMB: sizes and rates are exact reals, so floating-point rounding is not modelled.
- QualityCatalog.MakeLabel: the label keeps the size as a number, so the `.1f` rounding in the printed text is not modelled.
- Durations are `Option<nat>`, so fractional and negative durations are not modelled. For a fractional duration, `format_seconds` truncates it with `int()` and the bitrate estimate uses it as is.
- Heights are integers, so a non-integer `height` is not modelled.
- `str.strip()` is modelled with the whitespace set of `str.isspace`, non-ASCII whitespace included. `int()` is modelled as skipping that same set except U+001C-U+001F, then reading an optional sign and ASCII digits. Digit-group underscores and non-ASCII digits are not modelled.
- `os.path.splitext` follows the Windows flavour, which treats '/' and '\' both as separators; like it, the model does not treat a drive prefix specially (`C:.mp4` splits into `C:` and `.mp4`).

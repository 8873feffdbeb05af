# Subtitle writers of groq-transcribe

`groq-transcribe` sends an audio file to a speech-to-text service and gets
back a "verbose JSON" transcript: a list of segments, each with a start
time, an end time (both in seconds) and a text. Two functions turn that
transcript into subtitle files:

- `verbose_json_to_vtt` writes WebVTT. The output is the line `WEBVTT`, a
  blank line, and then for each segment a timing line
  `HH:MM:SS.mmm --> HH:MM:SS.mmm`, the text, and an empty line.
- `verbose_json_to_srt` writes SubRip. Each segment gives a block: its
  1-based number, a timing line `HH:MM:SS,mmm --> HH:MM:SS,mmm`, the text,
  and an empty line.

Both writers build a list of lines in a loop and join it with `"\n"`. Both
compute every timestamp the same way:

1. `divmod` the time by 3600, then divide the remainder by 60.
2. Take the fractional part times 1000 as the milliseconds.
3. Truncate each field with `int()`.
4. Print hours, minutes and seconds zero-padded to two digits and the
   milliseconds to three.

The model has four modules:

- `Decimal` (`decimal.dfy`): `str(n)` and the `{n:0w}` zero-padding for
  naturals. It also has the inverse reading of a digit string.
- `Timestamp` (`timestamp.dfy`): the timestamp arithmetic, factored into
  `Split` (the clock fields of a time) and `FormatTimestamp(t, sep)` (the
  rendered text). It also has an integer-millisecond reference
  `ClockOfMillis` and a reader `ParseTimestamp` for round trips.
- `Lines` (`lines.dfy`): `"\n".join` as `JoinLines`, `str.split("\n")` as
  `SplitLines`, and `Concat`, the list that repeated `append` calls build.
- `Subtitles` (`subtitles.dfy`): the two writers, as methods with the
  source's loop. Each method is proved equal to a specification function
  (`Vtt`, `Srt`). The layout functions take the timestamp renderer as a
  parameter, so the structural lemmas hold for any renderer. `VttStamp` and
  `SrtStamp` are `FormatTimestamp` with `.` and `,` as the separator.

Times are exact non-negative reals (`Seconds`). Python's `int()` on a
non-negative value is the floor, which is why `Split` uses `.Floor`.

## Model

| member | source | states |
|---|---|---|
| Subtitles.Vtt | src/groq_transcribe/transcribe.py:55 | The WebVTT text, `"\n".join` of the list. Its contract is carried by `VttEmpty`, `VttStartsWithHeader`, `VttPhysicalLines` and `HelloWorldVtt`. |
| Subtitles.Srt | src/groq_transcribe/transcribe.py:84 | The SubRip text, `"\n".join` of the list. Its contract is carried by `SrtEmpty`, `SrtPhysicalLines` and `HelloWorldSrt`. |
| Subtitles.VttStamp | src/groq_transcribe/transcribe.py:46-49 | A time as the WebVTT writer prints it, `FormatTimestamp` with `.`. Its contract is carried by `SeparatorOnlyDifference`, `StampsSingleLine`, `StampZero` and `StampOneAndAHalf`. |
| Subtitles.SrtStamp | src/groq_transcribe/transcribe.py:74-77 | A time as the SubRip writer prints it, `FormatTimestamp` with `,`. Its contract is carried by `SeparatorOnlyDifference`, `TimingLinesAgree`, `StampsSingleLine` and `StampZero`. |
| Subtitles.TimingLine | src/groq_transcribe/transcribe.py:51 | `<start> --> <end>`. Its contract is carried by `TimingLinesAgree`, `TimingLineReplaced` and `TimingLineSingle`, and by its place in `VttLinesLayout` and `SrtLinesLayout`. |
| Subtitles.VttCue | src/groq_transcribe/transcribe.py:51-53 | The three lines of one WebVTT cue. Its contract is carried by `VttLinesSnoc`, `VttStep` and `VttLinesLayout`. |
| Subtitles.SrtBlock | src/groq_transcribe/transcribe.py:79-82 | The four lines of one SubRip block. Its contract is carried by `SrtLinesSnoc`, `SrtStep` and `SrtLinesLayout`. |
| Subtitles.VttCues | src/groq_transcribe/transcribe.py:33-53 | One cue per segment, in input order. Its contract is carried by `VttCuesPrefix`, `VttCuesLength` and `VttLinesLayout`. |
| Subtitles.VttLines | src/groq_transcribe/transcribe.py:32-53 | The list `vtt_lines` after the visited segments: the header, then the cues. Its contract is carried by `VttLinesLayout`, `VttCuesLength`, `VttLinesSnoc` and, through the loop invariant, `VerboseJsonToVtt`. |
| Subtitles.SrtBlocks | src/groq_transcribe/transcribe.py:61-82 | One block per segment, in input order, numbered from 1. Its contract is carried by `SrtBlocksPrefix`, `SrtLinesLength` and `SrtLinesLayout`. |
| Subtitles.SrtLines | src/groq_transcribe/transcribe.py:60-82 | The list `srt_lines` after the visited segments: the blocks one after another. Its contract is carried by `SrtLinesLayout`, `SrtLinesLength`, `SrtLinesSnoc` and, through the loop invariant, `VerboseJsonToSrt`. |
| Subtitles.VerboseJsonToVtt | src/groq_transcribe/transcribe.py:30-55 | The loop appends the timing line, the text and `""` for each segment after `"WEBVTT\n"`, and returns the joined list. The loop invariant keeps the list equal to `VttLines` of the segments visited so far. The result is `Vtt(segments)`. |
| Subtitles.VerboseJsonToSrt | src/groq_transcribe/transcribe.py:58-84 | The loop numbers segments from 1 and appends `str(i)`, the timing line, the text and `""` for each. The loop invariant keeps the list equal to `SrtLines` of the segments visited so far. The result is `Srt(segments)`. |
| Subtitles.VttStep | src/groq_transcribe/transcribe.py:51-53 | One loop turn: appending the three cue lines to the list for the first i segments gives the list for the first i+1. |
| Subtitles.SrtStep | src/groq_transcribe/transcribe.py:79-82 | One loop turn: appending `str(k+1)`, the timing line, the text and `""` gives the list for the first k+1 segments. |
| Subtitles.VttLinesSnoc | src/groq_transcribe/transcribe.py:33-53 | Visiting one more segment appends exactly its cue to the WebVTT list. |
| Subtitles.SrtLinesSnoc | src/groq_transcribe/transcribe.py:61-82 | Visiting one more segment appends its block, numbered one past the count already visited. |
| Subtitles.VttCuesPrefix | src/groq_transcribe/transcribe.py:33 | The cues of a prefix of the segments are the prefix of the cues. |
| Subtitles.SrtBlocksPrefix | src/groq_transcribe/transcribe.py:61 | The blocks of a prefix of the segments are the prefix of the blocks. |
| Subtitles.VttCuesLength | src/groq_transcribe/transcribe.py:51-53 | n segments give 3n lines after the header. |
| Subtitles.SrtLinesLength | src/groq_transcribe/transcribe.py:79-82 | n segments give 4n lines. |
| Subtitles.VttEmpty | src/groq_transcribe/transcribe.py:32-55 | An empty transcript gives exactly `"WEBVTT\n"`. |
| Subtitles.VttStartsWithHeader | src/groq_transcribe/transcribe.py:32 | Every WebVTT text starts with `"WEBVTT\n"`. |
| Subtitles.VttLinesLayout | src/groq_transcribe/transcribe.py:32-53 | The list has 1+3n lines. Line 0 is the header. For segment k in input order, line 1+3k is its timing line, line 2+3k its text unchanged, and line 3+3k is empty. |
| Subtitles.SrtEmpty | src/groq_transcribe/transcribe.py:60-84 | An empty transcript gives the empty text. |
| Subtitles.SrtLinesLayout | src/groq_transcribe/transcribe.py:60-82 | The list has 4n lines. Line 4k is the numeral of k+1, all digits, reading back as k+1. Then come segment k's timing line, its text unchanged, and `""`. |
| Subtitles.TimingLinesAgree | src/groq_transcribe/transcribe.py:46-51 | For the same segment, the SubRip timing line equals the WebVTT one with the two millisecond separators replaced by `,`. Nothing else differs. |
| Subtitles.TimingLineReplaced | src/groq_transcribe/transcribe.py:51 | If one renderer prints every time as another does with the separator replaced, the two timing lines differ in those two places only. |
| Subtitles.StampsSingleLine | src/groq_transcribe/transcribe.py:46-49 | Neither writer's timestamp renderer ever prints a line feed. |
| Subtitles.StampSingleLine | src/groq_transcribe/transcribe.py:46-49 | A rendered timestamp has no line feed when the separator is not one. |
| Subtitles.TimingLineSingle | src/groq_transcribe/transcribe.py:51 | A timing line has no line feed when the renderer prints none. |
| Subtitles.DigitsSingleLine | src/groq_transcribe/transcribe.py:79 | A numeral `str(i)` holds no line feed. |
| Subtitles.VttCueLinesSingle | src/groq_transcribe/transcribe.py:51-53 | For a single-line renderer, when no segment text holds a line feed, no line after the header holds one. |
| Subtitles.VttSplitsBack | src/groq_transcribe/transcribe.py:32-55 | For any single-line renderer, splitting the joined WebVTT list at line feeds gives `WEBVTT`, a blank line, then the 3n cue lines. This holds when no text holds a line feed. |
| Subtitles.HeaderThenCues | src/groq_transcribe/transcribe.py:32 | The header's own `\n` plus the joining `\n` leave one empty physical line after `WEBVTT`. |
| Subtitles.VttPhysicalLines | src/groq_transcribe/transcribe.py:30-55 | When no text holds a line feed, the physical lines of the WebVTT file are `WEBVTT`, `""`, then the cue lines. |
| Subtitles.SrtSplitsBack | src/groq_transcribe/transcribe.py:60-84 | For any single-line renderer, splitting a non-empty joined SubRip list at line feeds gives back exactly its 4n lines when no text holds a line feed. |
| Subtitles.SrtPhysicalLines | src/groq_transcribe/transcribe.py:58-84 | When no text holds a line feed, the physical lines of a non-empty SubRip file are exactly its 4n lines. |
| Timestamp.FormatTimestamp | src/groq_transcribe/transcribe.py:46-49 | One rendered time, `{h:02}:{m:02}:{s:02}<sep>{ms:03}` of `Split(t)`, shared by both writers (the SubRip copy is at lines 74-77). Its contract is carried by `ParseFormatTimestamp`, `TimestampWidth`, `SeparatorOnlyDifference` and `TruncationExample`. |
| Timestamp.FormatClock | src/groq_transcribe/transcribe.py:46-49 | The rendering of given clock fields. Its contract is carried by `FormatClockShape`, `FormatClockChars`, `ParseFormatClock` and `SeparatorSwap`. |
| Subtitles.HelloWorldVtt | src/groq_transcribe/transcribe.py:30-55 | One segment from 0 s to 1.5 s saying "hello world" gives `"WEBVTT\n\n00:00:00.000 --> 00:00:01.500\nhello world\n"`. The lemma states it as the concatenation the join produces. |
| Subtitles.HelloWorldSrt | src/groq_transcribe/transcribe.py:58-84 | The same segment gives `"1\n00:00:00,000 --> 00:00:01,500\nhello world\n"`, again as a concatenation. |
| Subtitles.HelloWorldText | src/groq_transcribe/transcribe.py:51-55 | Under any renderer printing 0 s as `a` and 1.5 s as `b`, the two texts for that segment are the header or `1`, then `a --> b`, the text, and a final line feed. |
| Subtitles.OneCueText | src/groq_transcribe/transcribe.py:51-55 | The joined texts for one segment with a given timing line. |
| Subtitles.OneSegment | src/groq_transcribe/transcribe.py:32-53 | The line lists for one segment: header, timing, text, `""` for WebVTT, and `1`, timing, text, `""` for SubRip. |
| Subtitles.JoinCue | src/groq_transcribe/transcribe.py:55 | Joining three lines and a final empty one ends the text with a line feed. |
| Subtitles.ZeroSegment | src/groq_transcribe/transcribe.py:33-82 | A segment from 0 s to 0 s saying "x", at any position k, gives the cue `00:00:00.000 --> 00:00:00.000` / `x`. In SubRip it gives the block `str(k+1)` / `00:00:00,000 --> 00:00:00,000` / `x`. |
| Subtitles.ZeroSegmentWith | src/groq_transcribe/transcribe.py:33-82 | The same for any renderers printing 0 s as given texts. |
| Timestamp.StampZero | src/groq_transcribe/transcribe.py:38-49 | Time 0 prints as `00:00:00<sep>000`. |
| Timestamp.StampOneAndAHalf | src/groq_transcribe/transcribe.py:38-49 | 1.5 s prints as `00:00:01<sep>500`. |
| Timestamp.SplitZero | src/groq_transcribe/transcribe.py:38-40 | The clock fields of time 0 are all zero. |
| Timestamp.ZeroClockText | src/groq_transcribe/transcribe.py:46-47 | All-zero clock fields print as `00:00:00<sep>000`. |
| Timestamp.DivMod | src/groq_transcribe/transcribe.py:38-39 | Python's `divmod` with a positive divisor: `x == d*q + r` and `0 <= r < d`. |
| Timestamp.Split | src/groq_transcribe/transcribe.py:38-44 | Minutes < 60, seconds < 60 and millis < 1000. `3600h + 60m + s` is the whole seconds `⌊t⌋`. The total in milliseconds is `⌊1000t⌋`. |
| Timestamp.ClockOfMillis | src/groq_transcribe/transcribe.py:38-44 | Integer reference: in-range fields whose total is the given number of milliseconds. |
| Timestamp.SplitIsClockOfMillis | src/groq_transcribe/transcribe.py:38-44 | The real-valued computation equals the integer reference applied to `⌊1000t⌋`. |
| Timestamp.ClockUnique | src/groq_transcribe/transcribe.py:38-40 | In-range clock fields are determined by the total they denote. |
| Timestamp.Truncates | src/groq_transcribe/transcribe.py:40 | Milliseconds are truncated, not rounded: `ms ≤ 1000t < ms + 1`. |
| Timestamp.FormatClockShape | src/groq_transcribe/transcribe.py:46-49 | Hours take at least two digits and are never clamped. Minutes and seconds take exactly two digits and milliseconds exactly three, with `:`, `:` and the separator at fixed places from the end. |
| Timestamp.TimestampWidth | src/groq_transcribe/transcribe.py:46-49 | Below 100 hours a timestamp is exactly 12 characters. From 100 hours on it is longer, because the hours field widens. |
| Timestamp.FormatClockChars | src/groq_transcribe/transcribe.py:46-49 | Every character is a digit, `:` or the separator. |
| Timestamp.ParseFormatClock | src/groq_transcribe/transcribe.py:46-49 | Reading a rendered in-range clock back gives exactly its fields. |
| Timestamp.ParseFormatTimestamp | src/groq_transcribe/transcribe.py:46-49 | Reading a rendered timestamp back gives exactly the computed fields `Split(t)`. |
| Timestamp.SeparatorOnlyDifference | src/groq_transcribe/transcribe.py:74-77 | Renderings with two separators have equal length (at least 12). They differ only in the character before the milliseconds. |
| Timestamp.SeparatorSwap | src/groq_transcribe/transcribe.py:46-49 | For an in-range clock, the renderings with two separators have equal length and differ only at index `len - 4`. |
| Timestamp.TruncationExample | src/groq_transcribe/transcribe.py:38-49 | 3661.9996 s gives the clock (1, 1, 1, 999) and prints as `01:01:01.999`. It is not rounded up to the next second. |
| Timestamp.SplitExample | src/groq_transcribe/transcribe.py:38-40 | The clock fields of 3661.9996 s are (1, 1, 1, 999). |
| Timestamp.FormatClockExample | src/groq_transcribe/transcribe.py:46-47 | The clock (1, 1, 1, 999) prints as `01:01:01.999`. |
| Decimal.NatToString | src/groq_transcribe/transcribe.py:79 | `str(i)`: at least one character, all digits, and no leading zero for a positive number. |
| Decimal.ParseNatToString | src/groq_transcribe/transcribe.py:79 | Reading `str(n)` back gives n. |
| Decimal.ZeroPad | src/groq_transcribe/transcribe.py:47 | `{n:0w}`: all digits, width `max(w, len(str(n)))`. |
| Decimal.ZeroPadParts | src/groq_transcribe/transcribe.py:47 | `{n:0w}` is a run of zeros followed by `str(n)`. |
| Decimal.ZeroPadWidth | src/groq_transcribe/transcribe.py:47 | For a width w ≥ 1 and n below 10^w, the padded numeral has exactly w characters. Otherwise it is `str(n)`, wider than w and not truncated. |
| Decimal.NatToStringLength | src/groq_transcribe/transcribe.py:47 | For k ≥ 1, `str(n)` has at most k digits exactly when n < 10^k. |
| Decimal.ParseZeroPad | src/groq_transcribe/transcribe.py:47 | Reading `{n:0w}` back gives n. |
| Decimal.ParseLeadingZeros | src/groq_transcribe/transcribe.py:47 | Leading zeros do not change the value of a digit string. |
| Lines.JoinLines | src/groq_transcribe/transcribe.py:55 | `"\n".join(lines)`. Its contract is carried by `SplitJoinLines` (splitting undoes it), `JoinLinesStart` and `JoinLinesCons`. |
| Lines.SplitJoinLines | src/groq_transcribe/transcribe.py:55 | Splitting `"\n".join(lines)` at line feeds gives `lines` back when there is at least one line and none holds a line feed. |
| Lines.SplitAfterLine | src/groq_transcribe/transcribe.py:55 | Splitting after a line without line feeds peels off that line. |
| Lines.SplitSingleLine | src/groq_transcribe/transcribe.py:55 | Text without a line feed splits into itself alone. |
| Lines.JoinLinesStart | src/groq_transcribe/transcribe.py:55 | The joined text starts with the first line. |
| Lines.JoinLinesCons | src/groq_transcribe/transcribe.py:55 | A first line followed by others is joined to the rest by one line feed. |
| Lines.Concat | src/groq_transcribe/transcribe.py:51-53 | The list that repeated `append` calls build, block after block. Its contract is carried by `ConcatSnoc`, `ConcatAppend`, `ConcatAt` and `ConcatLength`. |
| Lines.ConcatSnoc | src/groq_transcribe/transcribe.py:51-53 | Appending a block's lines to the list extends it by exactly those lines. |
| Lines.ConcatLength | src/groq_transcribe/transcribe.py:79-82 | Blocks of uniform width w give w lines per block. |
| Lines.ConcatAppend | src/groq_transcribe/transcribe.py:33-53 | The lines of two runs of blocks, one after the other, are the lines of the first run followed by those of the second. |
| Lines.ConcatAt | src/groq_transcribe/transcribe.py:61-82 | Line j of block k sits right after all lines of the k blocks before it. |

## Left out

- Loading the `.env` file, reading `GROQ_API_KEY` and creating the API client (`transcribe.py` lines 18-27) are environment set-up and I/O.
- `transcribe` (lines 87-122) is left out. It calls the remote service, prints, and writes the `.txt`, `.vtt` and `.srt` files. The model starts from the segments that call returns.
- `main` (lines 125-187) is left out: argument parsing, help and usage output, exit codes, and the `d`/`w` model-name map.
- The transcript object and its `segments` attribute, with `segment["start"]` and friends looked up by key, are taken as a sequence of `Segment` values. A missing key or attribute is a Python exception, not modelled.
- Floating point: times are exact reals. Binary rounding can make `(t - int(t)) * 1000` slightly below a whole number, which shifts a millisecond in the Python program; the model does not show this.
- Negative times: `Seconds` excludes them. The service reports offsets from the start of the audio. For negative values, Python's floored `divmod` and truncating `int()` would disagree.
- Nothing orders a segment's start before its end, and the writers print whatever they are given. The model adds no such requirement.
- `Vtt`/`Srt` are stated for any segment texts. The physical-line lemmas (`VttPhysicalLines`, `SrtPhysicalLines`) assume no text holds a line feed, because a text with one spans several physical lines.

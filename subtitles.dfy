/** The two subtitle writers: `verbose_json_to_vtt` and
    `verbose_json_to_srt`.  Each walks the transcript's segments in order,
    appends the lines of one cue per segment to a list, and joins the list
    with line feeds.  The methods do exactly that; the functions beside them
    say what the resulting list and text are.

    The layout of the list does not depend on how a time is printed, so the
    layout functions take the timestamp renderer `stamp` as a parameter and
    the layout lemmas hold for every renderer; `VttStamp` and `SrtStamp`
    are the two renderers the writers use. */
module Subtitles {
  import opened Decimal
  import opened Timestamp
  import opened Lines

  /** One transcript segment as the service returns it.  Nothing relates
      `start` to `end`: the writers print both as given. */
  datatype Segment = Segment(start: Seconds, end: Seconds, text: string)

  /** The first list element of a WebVTT file; joined with the next line it
      leaves a blank line after `WEBVTT`. */
  const VttHeader: string := "WEBVTT\n"

  /** The character before the milliseconds in each format. */
  const VttSeparator: char := '.'
  const SrtSeparator: char := ','

  /** `HH:MM:SS.mmm`, as the WebVTT writer prints a time. */
  function VttStamp(t: Seconds): (r: string) {
    FormatTimestamp(t, VttSeparator)
  }

  /** `HH:MM:SS,mmm`, as the SubRip writer prints a time. */
  function SrtStamp(t: Seconds): (r: string) {
    FormatTimestamp(t, SrtSeparator)
  }

  /** `<start> --> <end>`. */
  function TimingLine(stamp: Seconds -> string, seg: Segment): (r: string) {
    stamp(seg.start) + " --> " + stamp(seg.end)
  }

  // ---------------------------------------------------------------- WebVTT

  /** The three lines one segment contributes to a WebVTT file. */
  function VttCue(stamp: Seconds -> string, seg: Segment): (r: seq<string>) {
    [TimingLine(stamp, seg), seg.text, ""]
  }

  /** One cue per segment, in input order. */
  function VttCues(stamp: Seconds -> string, segs: seq<Segment>): (r: seq<seq<string>>) {
    seq(|segs|, i requires 0 <= i < |segs| => VttCue(stamp, segs[i]))
  }

  /** The list `vtt_lines` holds once the segments `segs` have been visited. */
  function VttLines(stamp: Seconds -> string, segs: seq<Segment>): (r: seq<string>) {
    [VttHeader] + Concat(VttCues(stamp, segs))
  }

  /** The text `verbose_json_to_vtt` returns. */
  function Vtt(segs: seq<Segment>): (r: string) {
    JoinLines(VttLines(VttStamp, segs))
  }

  method VerboseJsonToVtt(segments: seq<Segment>) returns (vtt: string)
    ensures vtt == Vtt(segments)
  {
    var lines := [VttHeader];
    for i := 0 to |segments|
      invariant lines == VttLines(VttStamp, segments[..i])
    {
      var segment := segments[i];
      var startTime := FormatTimestamp(segment.start, VttSeparator);
      var endTime := FormatTimestamp(segment.end, VttSeparator);
      var timing := startTime + " --> " + endTime;
      VttStep(VttStamp, segments, i, lines, timing);
      lines := lines + [timing];
      lines := lines + [segment.text];
      lines := lines + [""];
    }
    assert segments[..|segments|] == segments;
    vtt := JoinLines(lines);
  }

  /** Visiting one more segment appends its cue. */
  lemma VttLinesSnoc(stamp: Seconds -> string, segs: seq<Segment>, seg: Segment)
    ensures VttLines(stamp, segs + [seg]) == VttLines(stamp, segs) + VttCue(stamp, seg)
  {
    var a, b := VttCues(stamp, segs + [seg]), VttCues(stamp, segs) + [VttCue(stamp, seg)];
    forall j | 0 <= j < |a|
      ensures a[j] == b[j]
    {
      if j < |segs| {
        assert (segs + [seg])[j] == segs[j];
      }
    }
    assert a == b;
    ConcatSnoc(VttCues(stamp, segs), VttCue(stamp, seg));
  }

  /** One turn of the WebVTT loop: appending the timing line, the text and
      an empty line to the list for the first i segments gives the list for
      the first i + 1. */
  lemma VttStep(stamp: Seconds -> string, segs: seq<Segment>, i: nat, lines: seq<string>, timing: string)
    requires i < |segs|
    requires lines == VttLines(stamp, segs[..i])
    requires timing == TimingLine(stamp, segs[i])
    ensures lines + [timing] + [segs[i].text] + [""] == VttLines(stamp, segs[..i + 1])
  {
    assert segs[..i + 1] == segs[..i] + [segs[i]];
    VttLinesSnoc(stamp, segs[..i], segs[i]);
  }

  lemma VttCuesPrefix(stamp: Seconds -> string, segs: seq<Segment>, k: nat)
    requires k <= |segs|
    ensures VttCues(stamp, segs)[..k] == VttCues(stamp, segs[..k])
  {
    var a, b := VttCues(stamp, segs)[..k], VttCues(stamp, segs[..k]);
    forall j | 0 <= j < k
      ensures a[j] == b[j]
    {
      assert segs[..k][j] == segs[j];
    }
  }

  lemma VttCuesLength(stamp: Seconds -> string, segs: seq<Segment>)
    ensures |Concat(VttCues(stamp, segs))| == 3 * |segs|
  {
    ConcatLength(VttCues(stamp, segs), 3);
  }

  /** An empty transcript gives the header alone. */
  lemma VttEmpty()
    ensures Vtt([]) == "WEBVTT\n"
  {
    assert VttLines(VttStamp, []) == [VttHeader];
  }

  /** Every WebVTT text starts with the header. */
  lemma VttStartsWithHeader(segs: seq<Segment>)
    ensures |Vtt(segs)| >= |VttHeader| && Vtt(segs)[..|VttHeader|] == VttHeader
  {
    JoinLinesStart(VttHeader, Concat(VttCues(VttStamp, segs)));
  }

  /** The WebVTT line list: the header, then for every segment, in input
      order, its timing line, its text unchanged and an empty line; there
      are 1 + 3n lines for n segments. */
  lemma VttLinesLayout(stamp: Seconds -> string, segs: seq<Segment>, k: nat)
    requires k < |segs|
    ensures var lines := VttLines(stamp, segs);
      && |lines| == 1 + 3 * |segs|
      && lines[0] == VttHeader
      && lines[1 + 3 * k] == TimingLine(stamp, segs[k])
      && lines[2 + 3 * k] == segs[k].text
      && lines[3 + 3 * k] == ""
  {
    var cues := VttCues(stamp, segs);
    VttCuesLength(stamp, segs);
    VttCuesPrefix(stamp, segs, k);
    VttCuesLength(stamp, segs[..k]);
    ConcatAt(cues, k, 0);
    ConcatAt(cues, k, 1);
    ConcatAt(cues, k, 2);
  }

  // ---------------------------------------------------------------- SubRip

  /** The four lines of the SubRip block numbered `index`. */
  function SrtBlock(stamp: Seconds -> string, index: nat, seg: Segment): (r: seq<string>) {
    [NatToString(index), TimingLine(stamp, seg), seg.text, ""]
  }

  /** One block per segment, in input order, numbered from 1. */
  function SrtBlocks(stamp: Seconds -> string, segs: seq<Segment>): (r: seq<seq<string>>) {
    seq(|segs|, i requires 0 <= i < |segs| => SrtBlock(stamp, i + 1, segs[i]))
  }

  /** The list `srt_lines` holds once the segments `segs` have been visited. */
  function SrtLines(stamp: Seconds -> string, segs: seq<Segment>): (r: seq<string>) {
    Concat(SrtBlocks(stamp, segs))
  }

  /** The text `verbose_json_to_srt` returns. */
  function Srt(segs: seq<Segment>): (r: string) {
    JoinLines(SrtLines(SrtStamp, segs))
  }

  method VerboseJsonToSrt(segments: seq<Segment>) returns (srt: string)
    ensures srt == Srt(segments)
  {
    var lines := [];
    for k := 0 to |segments|
      invariant lines == SrtLines(SrtStamp, segments[..k])
    {
      var i := k + 1;
      var segment := segments[k];
      var startTime := FormatTimestamp(segment.start, SrtSeparator);
      var endTime := FormatTimestamp(segment.end, SrtSeparator);
      var timing := startTime + " --> " + endTime;
      SrtStep(SrtStamp, segments, k, lines, timing);
      lines := lines + [NatToString(i)];
      lines := lines + [timing];
      lines := lines + [segment.text];
      lines := lines + [""];
    }
    assert segments[..|segments|] == segments;
    srt := JoinLines(lines);
  }

  /** Visiting one more segment appends its block, numbered one past the
      count of segments already visited. */
  lemma SrtLinesSnoc(stamp: Seconds -> string, segs: seq<Segment>, seg: Segment)
    ensures SrtLines(stamp, segs + [seg]) == SrtLines(stamp, segs) + SrtBlock(stamp, |segs| + 1, seg)
  {
    var a, b := SrtBlocks(stamp, segs + [seg]), SrtBlocks(stamp, segs) + [SrtBlock(stamp, |segs| + 1, seg)];
    forall j | 0 <= j < |a|
      ensures a[j] == b[j]
    {
      if j < |segs| {
        assert (segs + [seg])[j] == segs[j];
      }
    }
    assert a == b;
    ConcatSnoc(SrtBlocks(stamp, segs), SrtBlock(stamp, |segs| + 1, seg));
  }

  /** One turn of the SubRip loop: appending the number k + 1, the timing
      line, the text and an empty line to the list for the first k segments
      gives the list for the first k + 1. */
  lemma SrtStep(stamp: Seconds -> string, segs: seq<Segment>, k: nat, lines: seq<string>, timing: string)
    requires k < |segs|
    requires lines == SrtLines(stamp, segs[..k])
    requires timing == TimingLine(stamp, segs[k])
    ensures lines + [NatToString(k + 1)] + [timing] + [segs[k].text] + [""] == SrtLines(stamp, segs[..k + 1])
  {
    assert segs[..k + 1] == segs[..k] + [segs[k]];
    SrtLinesSnoc(stamp, segs[..k], segs[k]);
  }

  lemma SrtBlocksPrefix(stamp: Seconds -> string, segs: seq<Segment>, k: nat)
    requires k <= |segs|
    ensures SrtBlocks(stamp, segs)[..k] == SrtBlocks(stamp, segs[..k])
  {
    var a, b := SrtBlocks(stamp, segs)[..k], SrtBlocks(stamp, segs[..k]);
    forall j | 0 <= j < k
      ensures a[j] == b[j]
    {
      assert segs[..k][j] == segs[j];
    }
  }

  lemma SrtLinesLength(stamp: Seconds -> string, segs: seq<Segment>)
    ensures |SrtLines(stamp, segs)| == 4 * |segs|
  {
    ConcatLength(SrtBlocks(stamp, segs), 4);
  }

  /** An empty transcript gives the empty text. */
  lemma SrtEmpty()
    ensures Srt([]) == ""
  {
    assert SrtLines(SrtStamp, []) == [];
  }

  /** The SubRip line list: 4n lines for n segments; block k (counting
      from 0) is the number k + 1, whatever the segments' times, then the
      timing line, the text unchanged and an empty line. */
  lemma SrtLinesLayout(stamp: Seconds -> string, segs: seq<Segment>, k: nat)
    requires k < |segs|
    ensures var lines := SrtLines(stamp, segs);
      && |lines| == 4 * |segs|
      && lines[4 * k] == NatToString(k + 1)
      && AllDigits(lines[4 * k]) && ParseDecimal(lines[4 * k]) == k + 1
      && lines[4 * k + 1] == TimingLine(stamp, segs[k])
      && lines[4 * k + 2] == segs[k].text
      && lines[4 * k + 3] == ""
  {
    var blocks := SrtBlocks(stamp, segs);
    SrtLinesLength(stamp, segs);
    SrtBlocksPrefix(stamp, segs, k);
    SrtLinesLength(stamp, segs[..k]);
    ConcatAt(blocks, k, 0);
    ConcatAt(blocks, k, 1);
    ConcatAt(blocks, k, 2);
    ConcatAt(blocks, k, 3);
    ParseNatToString(k + 1);
  }

  // ------------------------------------------------ relating the two formats

  /** For the same segment the SubRip timing line is the WebVTT one with the
      two millisecond separators replaced, and nothing else changed. */
  lemma TimingLinesAgree(seg: Segment)
    ensures var v, s := TimingLine(VttStamp, seg), TimingLine(SrtStamp, seg);
      var i := |VttStamp(seg.start)| - 4;
      |v| == |s| && s == v[i := SrtSeparator][|v| - 4 := SrtSeparator]
  {
    SeparatorOnlyDifference(seg.start, VttSeparator, SrtSeparator);
    SeparatorOnlyDifference(seg.end, VttSeparator, SrtSeparator);
    TimingLineReplaced(VttStamp, SrtStamp, SrtSeparator, seg);
  }

  /** When renderer `s` prints every time as renderer `v` does with the
      fourth-from-last character replaced by `c`, the timing lines differ in
      those two places only. */
  lemma TimingLineReplaced(v: Seconds -> string, s: Seconds -> string, c: char, seg: Segment)
    requires |v(seg.start)| >= 4 && |v(seg.end)| >= 4
    requires s(seg.start) == v(seg.start)[|v(seg.start)| - 4 := c]
    requires s(seg.end) == v(seg.end)[|v(seg.end)| - 4 := c]
    ensures var vl, sl := TimingLine(v, seg), TimingLine(s, seg);
      |vl| == |sl| && sl == vl[|v(seg.start)| - 4 := c][|vl| - 4 := c]
  {
    BothReplaced(v(seg.start), v(seg.end), " --> ", c);
  }

  /** Replacing the fourth-from-last character of each of two texts joined
      by `mid`. */
  lemma BothReplaced(a: string, b: string, mid: string, c: char)
    requires |a| >= 4 && |b| >= 4
    ensures var v := a + mid + b;
      v[|a| - 4 := c][|v| - 4 := c] == a[|a| - 4 := c] + mid + b[|b| - 4 := c]
  {
    var v := a + mid + b;
    assert v[|a| - 4 := c] == a[|a| - 4 := c] + mid + b;
    var w := a[|a| - 4 := c] + mid + b;
    assert w[|v| - 4 := c] == a[|a| - 4 := c] + mid + b[|b| - 4 := c];
  }

  // ------------------------------------------------- the text as a file

  /** A renderer whose output never holds a line feed. */
  ghost predicate SingleLineStamp(stamp: Seconds -> string) {
    forall t: Seconds :: NoNewline(stamp(t))
  }

  /** Both writers' renderers print a single line. */
  lemma StampsSingleLine()
    ensures SingleLineStamp(VttStamp) && SingleLineStamp(SrtStamp)
  {
    forall t: Seconds
      ensures NoNewline(VttStamp(t)) && NoNewline(SrtStamp(t))
    {
      StampSingleLine(t, VttSeparator);
      StampSingleLine(t, SrtSeparator);
    }
  }

  lemma StampSingleLine(t: Seconds, sep: char)
    requires sep != '\n'
    ensures NoNewline(FormatTimestamp(t, sep))
  {
    var s := FormatTimestamp(t, sep);
    FormatClockChars(Split(t), sep);
    forall i | 0 <= i < |s|
      ensures s[i] != '\n'
    {
      assert IsDigit(s[i]) || s[i] == ':' || s[i] == sep;
    }
  }

  lemma TimingLineSingle(stamp: Seconds -> string, seg: Segment)
    requires SingleLineStamp(stamp)
    ensures NoNewline(TimingLine(stamp, seg))
  {
    var a, b := stamp(seg.start), stamp(seg.end);
    assert NoNewline(a) && NoNewline(b);
    var s := a + " --> " + b;
    forall i | 0 <= i < |s|
      ensures s[i] != '\n'
    {
      if i < |a| {
        assert s[i] == a[i];
      } else if i >= |a| + 5 {
        assert s[i] == b[i - |a| - 5];
      }
    }
  }

  lemma DigitsSingleLine(d: string)
    requires AllDigits(d)
    ensures NoNewline(d)
  {
    forall j | 0 <= j < |d|
      ensures d[j] != '\n'
    {
      assert IsDigit(d[j]);
    }
  }

  predicate TextsSingleLine(segs: seq<Segment>) {
    forall k :: 0 <= k < |segs| ==> NoNewline(segs[k].text)
  }

  /** When no segment text holds a line feed, no line after the header
      holds one. */
  lemma VttCueLinesSingle(stamp: Seconds -> string, segs: seq<Segment>)
    requires SingleLineStamp(stamp) && TextsSingleLine(segs)
    ensures var cues := Concat(VttCues(stamp, segs));
      forall i :: 0 <= i < |cues| ==> NoNewline(cues[i])
  {
    var lines := VttLines(stamp, segs);
    var cues := Concat(VttCues(stamp, segs));
    VttCuesLength(stamp, segs);
    forall i | 0 <= i < |cues|
      ensures NoNewline(cues[i])
    {
      var k := i / 3;
      VttLinesLayout(stamp, segs, k);
      TimingLineSingle(stamp, segs[k]);
      assert cues[i] == lines[i + 1];
    }
  }

  /** For a single-line renderer and texts without line feeds, the physical
      lines of the joined WebVTT list are `WEBVTT`, a blank line, and then
      the 3n cue lines. */
  lemma VttSplitsBack(stamp: Seconds -> string, segs: seq<Segment>)
    requires SingleLineStamp(stamp) && TextsSingleLine(segs)
    ensures SplitLines(JoinLines(VttLines(stamp, segs))) == ["WEBVTT", ""] + Concat(VttCues(stamp, segs))
  {
    var cues := Concat(VttCues(stamp, segs));
    assert VttHeader == "WEBVTT" + "\n" + "";
    if cues == [] {
      assert VttLines(stamp, segs) == [VttHeader];
      SplitAfterLine("WEBVTT", "");
    } else {
      VttCueLinesSingle(stamp, segs);
      JoinLinesCons(VttHeader, cues);
      HeaderThenCues(JoinLines(cues));
      SplitJoinLines(cues);
    }
  }

  /** The header's own line feed and the joining one leave an empty
      physical line between `WEBVTT` and what follows. */
  lemma HeaderThenCues(rest: string)
    ensures SplitLines(VttHeader + "\n" + rest) == ["WEBVTT", ""] + SplitLines(rest)
  {
    assert VttHeader + "\n" + rest == "WEBVTT" + "\n" + ("" + "\n" + rest);
    SplitAfterLine("WEBVTT", "" + "\n" + rest);
    SplitAfterLine("", rest);
  }

  /** When no segment text holds a line feed, the physical lines of the
      WebVTT text are `WEBVTT`, a blank line, and then the 3n cue lines. */
  lemma VttPhysicalLines(segs: seq<Segment>)
    requires TextsSingleLine(segs)
    ensures SplitLines(Vtt(segs)) == ["WEBVTT", ""] + Concat(VttCues(VttStamp, segs))
  {
    StampsSingleLine();
    VttSplitsBack(VttStamp, segs);
  }

  /** For a single-line renderer and texts without line feeds, the physical
      lines of a non-empty joined SubRip list are exactly its 4n lines. */
  lemma SrtSplitsBack(stamp: Seconds -> string, segs: seq<Segment>)
    requires SingleLineStamp(stamp)
    requires |segs| > 0 && TextsSingleLine(segs)
    ensures SplitLines(JoinLines(SrtLines(stamp, segs))) == SrtLines(stamp, segs)
  {
    var lines := SrtLines(stamp, segs);
    SrtLinesLength(stamp, segs);
    forall i | 0 <= i < |lines|
      ensures NoNewline(lines[i])
    {
      var k := i / 4;
      SrtLinesLayout(stamp, segs, k);
      TimingLineSingle(stamp, segs[k]);
      DigitsSingleLine(NatToString(k + 1));
    }
    SplitJoinLines(lines);
  }

  /** When no segment text holds a line feed, the physical lines of a
      non-empty SubRip text are exactly its 4n lines. */
  lemma SrtPhysicalLines(segs: seq<Segment>)
    requires |segs| > 0 && TextsSingleLine(segs)
    ensures SplitLines(Srt(segs)) == SrtLines(SrtStamp, segs)
  {
    StampsSingleLine();
    SrtSplitsBack(SrtStamp, segs);
  }

  // ---------------------------------------------------- worked examples

  /** A segment from 0 s to 1.5 s saying "hello world" gives the WebVTT
      text `WEBVTT`, a blank line, the cue, and a final line feed, that is
      `"WEBVTT\n\n00:00:00.000 --> 00:00:01.500\nhello world\n"`. */
  lemma HelloWorldVtt()
    ensures Vtt([Segment(0.0, 1.5, "hello world")])
            == "WEBVTT\n" + "\n" + ("00:00:00.000" + " --> " + "00:00:01.500") + "\n" + "hello world" + "\n"
  {
    StampZero(VttSeparator);
    StampOneAndAHalf(VttSeparator);
    HelloWorldText(VttStamp, "00:00:00.000", "00:00:01.500");
  }

  /** The same segment gives the SubRip block numbered 1, that is
      `"1\n00:00:00,000 --> 00:00:01,500\nhello world\n"`. */
  lemma HelloWorldSrt()
    ensures Srt([Segment(0.0, 1.5, "hello world")])
            == "1" + "\n" + ("00:00:00,000" + " --> " + "00:00:01,500") + "\n" + "hello world" + "\n"
  {
    StampZero(SrtSeparator);
    StampOneAndAHalf(SrtSeparator);
    HelloWorldText(SrtStamp, "00:00:00,000", "00:00:01,500");
  }

  /** The two texts for the "hello world" segment under a renderer that
      prints its times as `a` and `b`. */
  lemma HelloWorldText(stamp: Seconds -> string, a: string, b: string)
    requires stamp(0.0) == a && stamp(1.5) == b
    ensures JoinLines(VttLines(stamp, [Segment(0.0, 1.5, "hello world")]))
            == VttHeader + "\n" + (a + " --> " + b) + "\n" + "hello world" + "\n"
    ensures JoinLines(SrtLines(stamp, [Segment(0.0, 1.5, "hello world")]))
            == "1" + "\n" + (a + " --> " + b) + "\n" + "hello world" + "\n"
  {
    var seg := Segment(0.0, 1.5, "hello world");
    assert TimingLine(stamp, seg) == a + " --> " + b;
    OneCueText(stamp, seg, a + " --> " + b);
  }

  /** The texts for a single segment whose timing line is `timing`. */
  lemma OneCueText(stamp: Seconds -> string, seg: Segment, timing: string)
    requires TimingLine(stamp, seg) == timing
    ensures JoinLines(VttLines(stamp, [seg])) == VttHeader + "\n" + timing + "\n" + seg.text + "\n"
    ensures JoinLines(SrtLines(stamp, [seg])) == "1" + "\n" + timing + "\n" + seg.text + "\n"
  {
    OneSegment(stamp, seg);
    assert NatToString(1) == "1";
    JoinCue(VttHeader, timing, seg.text);
    JoinCue("1", timing, seg.text);
  }

  /** A segment running from 0 s to 0 s saying "x", wherever it sits in
      the transcript, gives the WebVTT cue of the zero timing line and `x`,
      and the SubRip block of its number, the zero timing line and `x`. */
  lemma ZeroSegment(segs: seq<Segment>, k: nat)
    requires k < |segs| && segs[k] == Segment(0.0, 0.0, "x")
    ensures var v, s := VttLines(VttStamp, segs), SrtLines(SrtStamp, segs);
      && |v| == 1 + 3 * |segs| && |s| == 4 * |segs|
      && v[1 + 3 * k] == "00:00:00.000" + " --> " + "00:00:00.000" && v[2 + 3 * k] == "x"
      && s[4 * k] == NatToString(k + 1)
      && s[4 * k + 1] == "00:00:00,000" + " --> " + "00:00:00,000" && s[4 * k + 2] == "x"
  {
    StampZero(VttSeparator);
    StampZero(SrtSeparator);
    ZeroSegmentWith(VttStamp, SrtStamp, segs, k, "00:00:00.000", "00:00:00,000");
  }

  lemma ZeroSegmentWith(vs: Seconds -> string, ss: Seconds -> string, segs: seq<Segment>, k: nat, zv: string, zs: string)
    requires k < |segs| && segs[k] == Segment(0.0, 0.0, "x")
    requires vs(0.0) == zv && ss(0.0) == zs
    ensures var v, s := VttLines(vs, segs), SrtLines(ss, segs);
      && |v| == 1 + 3 * |segs| && |s| == 4 * |segs|
      && v[1 + 3 * k] == zv + " --> " + zv && v[2 + 3 * k] == "x"
      && s[4 * k] == NatToString(k + 1)
      && s[4 * k + 1] == zs + " --> " + zs && s[4 * k + 2] == "x"
  {
    VttLinesLayout(vs, segs, k);
    SrtLinesLayout(ss, segs, k);
  }

  /** The lists for a single segment. */
  lemma OneSegment(stamp: Seconds -> string, seg: Segment)
    ensures VttLines(stamp, [seg]) == [VttHeader, TimingLine(stamp, seg), seg.text, ""]
    ensures SrtLines(stamp, [seg]) == [NatToString(1), TimingLine(stamp, seg), seg.text, ""]
  {
    VttLinesSnoc(stamp, [], seg);
    SrtLinesSnoc(stamp, [], seg);
    assert [] + [seg] == [seg];
  }

  /** Joining three lines and a final empty one ends the text with a line
      feed. */
  lemma JoinCue(a: string, b: string, c: string)
    ensures JoinLines([a, b, c, ""]) == a + "\n" + b + "\n" + c + "\n"
  {
    JoinLinesCons(a, [b, c, ""]);
    JoinLinesCons(b, [c, ""]);
    JoinLinesCons(c, [""]);
    assert [a] + [b, c, ""] == [a, b, c, ""];
    assert [b] + [c, ""] == [b, c, ""];
    assert [c] + [""] == [c, ""];
    assert a + "\n" + (b + "\n" + (c + "\n" + "")) == a + "\n" + b + "\n" + c + "\n";
  }
}

/**
 * The WeWork notifier's text logic: titles rendered as Markdown, the group
 * heading with its heat marker, messages cut into batches of at most 20000
 * UTF-8 bytes by default, and the batch header.
 */
module WeWork {
  import opened Wrappers
  import opened Text
  import opened Matcher
  import opened Reporter
  import opened FileUtils
  import opened Batching
  import opened Notify

  /** The default byte limit of one message. */
  const DefaultMaxBytes := 20000

  /** `_format_title(title_data, show_source)`, part by part. */
  function TitleParts(t: ReportTitle, showSource: bool): (l: TitleLine)
    ensures l.source != "" <==> showSource
    ensures showSource ==> l.source == "[" + t.sourceName + "] "
    ensures l.mark != "" <==> t.isNew
    ensures t.isNew ==> l.mark == "🆕 "
    ensures t.mobileUrl != "" ==> l.headline == MarkdownLink(CleanTitle(t.title), t.mobileUrl)
    ensures t.mobileUrl == "" ==> l.headline == MarkdownLink(CleanTitle(t.title), t.url)
    ensures l.rank == "" <==> |t.ranks| == 0
    ensures |t.ranks| > 0 ==> (StartsWith(l.rank, " **") <==> Least(t.ranks) <= t.rankThreshold)
    ensures |t.ranks| > 0 ==> l.rank[0] == ' ' && ShowsRange(l.rank[1..], t.ranks, t.rankThreshold, "**", "**")
    ensures l.time == "" <==> t.timeDisplay == ""
    ensures t.timeDisplay != "" ==> l.time == " - " + t.timeDisplay
    ensures l.count == CountSuffix(t.count, " (", "次)")
  {
    assert " " + "**" == " **";
    TitleLine(
      if showSource then "[" + t.sourceName + "] " else "",
      NewMark(t.isNew),
      MarkdownLink(CleanTitle(t.title), LinkOf(t)),
      RankSuffix(t.ranks, t.rankThreshold, "**", "**"),
      if t.timeDisplay != "" then " - " + t.timeDisplay else "",
      CountSuffix(t.count, " (", "次)"))
  }

  /** `_format_title(title_data, show_source)` */
  function FormatTitle(t: ReportTitle, showSource: bool): string {
    TitleParts(t, showSource).Text()
  }

  /**
   * The rendered title reads in the source's order: the source tag when shown,
   * the "🆕 " mark when new and the cleaned title, linked when there is a link, lead the line, and the count
   * closes it.
   */
  lemma FormatTitleLayout(t: ReportTitle, showSource: bool)
    ensures var r := FormatTitle(t, showSource);
      var lead := (if showSource then "[" + t.sourceName + "] " else "") + (if t.isNew then "🆕 " else "")
        + MarkdownLink(CleanTitle(t.title), LinkOf(t));
      var count := CountSuffix(t.count, " (", "次)");
      && |lead| <= |r| && r[..|lead|] == lead
      && |count| <= |r| && r[|r| - |count|..] == count
  {
    TextLayout(TitleParts(t, showSource));
  }

  /**
   * A new title is rendered from a copy marked not new, without its source:
   * no "🆕 " and no source tag, everything else as for the title itself.
   */
  function NewTitleParts(t: ReportTitle): (l: TitleLine)
    ensures l.source == "" && l.mark == ""
    ensures var own := TitleParts(t, false);
      l.headline == own.headline && l.rank == own.rank && l.time == own.time && l.count == own.count
  {
    TitleParts(t.(isNew := false), false)
  }

  /** The count in a group heading, in bold from 5 titles. */
  function CountText(count: int): (r: string)
    ensures count >= 5 ==> r == "**" + IntToString(count) + "**"
    ensures count < 5 ==> r == IntToString(count)
  {
    if count >= 5 then "**" + IntToString(count) + "**" else IntToString(count)
  }

  /** The heading of the `i`-th of `n` keyword groups, led by the group's heat marker. */
  function GroupHeading(i: nat, n: nat, word: string, count: int): (r: string)
    ensures StartsWith(r, HeatMarker(count) + " [")
    ensures ReadRatio(r[|HeatMarker(count)| + 2..], "]") ==
      Some((i + 1, n as int, " **" + word + "** : " + CountText(count) + " 条\n\n"))
  {
    var lead := HeatMarker(count) + " [";
    var tail := " **" + word + "** : " + CountText(count) + " 条\n\n";
    var body := RatioText(i + 1, n) + "]" + tail;
    ReadRatioOf(i + 1, n, "]", tail);
    var r := lead + body;
    assert r[..|lead|] == lead && r[|lead|..] == body;
    r
  }

  /** The texts `send` posts for a rendered report: its batches, numbered when there are several. */
  method Messages(content: string, maxBytes: int) returns (texts: seq<string>)
    ensures texts == Labelled(BatchesOf(content, maxBytes), "**[", "]**")
    ensures Utf8Len(content) <= maxBytes ==> texts == [content]
  {
    var batches := SplitIntoBatches(content, maxBytes);
    texts := Labelled(batches, "**[", "]**");
  }
}

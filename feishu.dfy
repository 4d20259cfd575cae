/**
 * The Feishu notifier's text logic: titles rendered as Markdown with coloured
 * font tags, the group heading with its heat marker, and the notice shown when
 * nothing matched.
 */
module Feishu {
  import opened Wrappers
  import opened Text
  import opened Matcher
  import opened Reporter
  import opened FileUtils
  import opened Notify

  const RankStart := "<font color='red'>**"
  const RankEnd := "**</font>"

  /** `_format_title(title_data, show_source)`, part by part. */
  function TitleParts(t: ReportTitle, showSource: bool): (l: TitleLine)
    ensures l.source != "" <==> showSource
    ensures showSource ==> l.source == "<font color='grey'>[" + t.sourceName + "]</font> "
    ensures l.mark != "" <==> t.isNew
    ensures t.isNew ==> l.mark == "🆕 "
    ensures t.mobileUrl != "" ==> l.headline == MarkdownLink(CleanTitle(t.title), t.mobileUrl)
    ensures t.mobileUrl == "" ==> l.headline == MarkdownLink(CleanTitle(t.title), t.url)
    ensures l.rank == "" <==> |t.ranks| == 0
    ensures |t.ranks| > 0 ==> (StartsWith(l.rank, " " + RankStart) <==> Least(t.ranks) <= t.rankThreshold)
    ensures |t.ranks| > 0 ==> l.rank[0] == ' ' && ShowsRange(l.rank[1..], t.ranks, t.rankThreshold, RankStart, RankEnd)
    ensures l.time == "" <==> t.timeDisplay == ""
    ensures t.timeDisplay != "" ==> l.time == " <font color='grey'>- " + t.timeDisplay + "</font>"
    ensures l.count == CountSuffix(t.count, " <font color='green'>(", "次)</font>")
  {
    TitleLine(
      if showSource then "<font color='grey'>[" + t.sourceName + "]</font> " else "",
      NewMark(t.isNew),
      MarkdownLink(CleanTitle(t.title), LinkOf(t)),
      RankSuffix(t.ranks, t.rankThreshold, RankStart, RankEnd),
      if t.timeDisplay != "" then " <font color='grey'>- " + t.timeDisplay + "</font>" else "",
      CountSuffix(t.count, " <font color='green'>(", "次)</font>"))
  }

  /** `_format_title(title_data, show_source)` */
  function FormatTitle(t: ReportTitle, showSource: bool): string {
    TitleParts(t, showSource).Text()
  }

  /**
   * The rendered title reads in the source's order: the source tag when shown,
   * the "🆕 " mark when new and the cleaned title, linked when there is a link, lead the line, and the count
   * closes it.
   */
  lemma FormatTitleLayout(t: ReportTitle, showSource: bool)
    ensures var r := FormatTitle(t, showSource);
      var lead := (if showSource then "<font color='grey'>[" + t.sourceName + "]</font> " else "") + (if t.isNew then "🆕 " else "")
        + MarkdownLink(CleanTitle(t.title), LinkOf(t));
      var count := CountSuffix(t.count, " <font color='green'>(", "次)</font>");
      && |lead| <= |r| && r[..|lead|] == lead
      && |count| <= |r| && r[|r| - |count|..] == count
  {
    TextLayout(TitleParts(t, showSource));
  }

  /**
   * A new title is rendered from a copy marked not new, without its source:
   * no "🆕 " and no source tag, everything else as for the title itself. The
   * report's own record keeps its flag.
   */
  function NewTitleParts(t: ReportTitle): (l: TitleLine)
    ensures l.source == "" && l.mark == ""
    ensures var own := TitleParts(t, false);
      l.headline == own.headline && l.rank == own.rank && l.time == own.time && l.count == own.count
  {
    TitleParts(t.(isNew := false), false)
  }

  /** The count in a group heading: red from 10 titles, orange from 5, plain below. */
  function CountText(count: int): (r: string)
    ensures count >= 10 ==> r == "<font color='red'>" + IntToString(count) + "</font>"
    ensures 5 <= count < 10 ==> r == "<font color='orange'>" + IntToString(count) + "</font>"
    ensures count < 5 ==> r == IntToString(count)
  {
    if count >= 10 then "<font color='red'>" + IntToString(count) + "</font>"
    else if count >= 5 then "<font color='orange'>" + IntToString(count) + "</font>"
    else IntToString(count)
  }

  /** The heading of the `i`-th of `n` keyword groups, led by the group's heat marker. */
  function GroupHeading(i: nat, n: nat, word: string, count: int): (r: string)
    ensures StartsWith(r, HeatMarker(count) + " <font color='grey'>[")
    ensures ReadRatio(r[|HeatMarker(count) + " <font color='grey'>["|..], "]</font>") ==
      Some((i + 1, n as int, " **" + word + "** : " + CountText(count) + " 条\n\n"))
  {
    var lead := HeatMarker(count) + " <font color='grey'>[";
    var tail := " **" + word + "** : " + CountText(count) + " 条\n\n";
    var body := RatioText(i + 1, n) + "]</font>" + tail;
    ReadRatioOf(i + 1, n, "]</font>", tail);
    var r := lead + body;
    assert r[..|lead|] == lead && r[|lead|..] == body;
    r
  }

  /**
   * The body begins with the "📭" notice worded by the report mode exactly when
   * there are no keyword groups; otherwise with the statistics heading.
   */
  function Opening(stats: seq<ReportGroup>, mode: string): (r: string)
    ensures |stats| == 0 ==> r == "📭 " + ModeText(mode) + "\n\n"
    ensures |stats| > 0 ==> r == "📊 **热点词汇统计**\n\n"
  {
    if |stats| > 0 then "📊 **热点词汇统计**\n\n" else EmptyNotice(stats, mode)
  }
}

/**
 * The pieces the Telegram, WeWork and Feishu notifiers share when they render
 * a report title as one line of a message: the parts of the line, the link
 * choice, the count suffix, the heat marker of a keyword group and the text
 * shown when nothing matched.
 */
module Notify {
  import opened Text
  import opened Records
  import opened Matcher
  import opened Reporter

  /** A formatted title, part by part, in the order the parts are written. */
  datatype TitleLine = TitleLine(source: string, mark: string, headline: string, rank: string, time: string, count: string) {
    function Text(): string {
      source + mark + headline + rank + time + count
    }
  }

  /** The source tag, the mark and the headline lead the line, and the count closes it. */
  lemma TextLayout(l: TitleLine)
    ensures var lead := l.source + l.mark + l.headline;
      |lead| <= |l.Text()| && l.Text()[..|lead|] == lead
    ensures |l.count| <= |l.Text()| && l.Text()[|l.Text()| - |l.count|..] == l.count
  {
    var lead := l.source + l.mark + l.headline;
    var mid := l.rank + l.time;
    assert l.Text() == lead + mid + l.count;
  }

  /** `title_data.get("mobile_url") or title_data.get("url", "")` */
  function LinkOf(t: ReportTitle): (link: string)
    ensures t.mobileUrl != "" ==> link == t.mobileUrl
    ensures t.mobileUrl == "" ==> link == t.url
  {
    Or(t.mobileUrl, t.url)
  }

  /** The "🆕 " prefix of a title first seen in the latest round. */
  function NewMark(isNew: bool): (r: string)
    ensures isNew ==> r == "🆕 "
    ensures !isNew ==> r == ""
  {
    if isNew then "🆕 " else ""
  }

  /** `[title](link)`, or the bare title when there is no link. */
  function MarkdownLink(title: string, link: string): (r: string)
    ensures link == "" ==> r == title
    ensures link != "" ==> |r| == |title| + |link| + 4 && r[1..|title| + 1] == title
    ensures link != "" ==>
      && r[0] == '[' && r[|title| + 1..|title| + 3] == "]("
      && r[|title| + 3..|r| - 1] == link && r[|r| - 1] == ')'
  {
    if link != "" then "[" + title + "](" + link + ")" else title
  }

  /** The rank range after a space, in the channel's highlight markup when the best rank is within the threshold. */
  function RankSuffix(ranks: seq<int>, threshold: int, start: string, end: string): (r: string)
    ensures r == "" <==> |ranks| == 0
    ensures |ranks| > 0 && |start| > 0 && start[0] != '[' ==>
      (StartsWith(r, " " + start) <==> Least(ranks) <= threshold)
    ensures |ranks| > 0 ==> r[0] == ' ' && ShowsRange(r[1..], ranks, threshold, start, end)
  {
    if |ranks| == 0 then ""
    else
      var m := RankMarkup(ranks, threshold, start, end);
      assert (" " + m)[1..] == m;
      SpaceThenStarts(m, start);
      " " + m
  }

  lemma SpaceThenStarts(m: string, start: string)
    ensures StartsWith(" " + m, " " + start) <==> StartsWith(m, start)
  {
    if |m| >= |start| {
      var x := m[..|start|];
      assert (" " + m)[..|start| + 1] == " " + x;
      assert (" " + x)[1..] == x && (" " + start)[1..] == start;
    }
  }

  /** The number of rounds a title was seen, between the channel's markup, shown only above one. */
  function CountSuffix(count: int, open: string, close: string): (r: string)
    ensures r == "" <==> count <= 1
  {
    if count > 1 then open + IntToString(count) + close else ""
  }

  /** The count suffix reads back as the count: its digits between the markup are the number. */
  lemma CountSuffixReadsBack(count: int, open: string, close: string)
    requires count > 1
    ensures var r := CountSuffix(count, open, close);
      && |r| >= |open| + |close|
      && r[..|open|] == open && r[|r| - |close|..] == close
      && IsDigits(r[|open|..|r| - |close|])
      && DigitsValue(r[|open|..|r| - |close|]) == count
  {
    var r := CountSuffix(count, open, close);
    var digits := NatToString(count);
    assert IntToString(count) == digits;
    assert r == open + digits + close;
    assert r[|open|..|r| - |close|] == digits;
    NatToStringRoundTrip(count);
  }

  // ---------------------------------------------------------------------------
  // Keyword groups in the message body
  // ---------------------------------------------------------------------------

  /** The heat marker of a keyword group: 🔥 from 10 titles, 📈 from 5, 📌 below. */
  function HeatMarker(count: int): (m: string)
    ensures m == "🔥" <==> count >= 10
    ensures m == "📈" <==> 5 <= count < 10
    ensures m == "📌" <==> count < 5
  {
    if count >= 10 then "🔥" else if count >= 5 then "📈" else "📌"
  }

  /** A group with more titles never gets a cooler marker. */
  lemma HeatMarkerMonotone(a: int, b: int)
    requires a <= b
    ensures HeatMarker(a) == "🔥" ==> HeatMarker(b) == "🔥"
    ensures HeatMarker(a) == "📈" ==> HeatMarker(b) != "📌"
  {
  }

  /** The notice shown for a report mode when no group matched. */
  function ModeText(mode: string): (r: string)
    ensures mode == "incremental" ==> r == "增量模式下暂无新增匹配的热点词汇"
    ensures mode == "current" ==> r == "当前榜单模式下暂无匹配的热点词汇"
    ensures mode != "incremental" && mode != "current" ==> r == "暂无匹配的热点词汇"
  {
    if mode == "incremental" then "增量模式下暂无新增匹配的热点词汇"
    else if mode == "current" then "当前榜单模式下暂无匹配的热点词汇"
    else "暂无匹配的热点词汇"
  }

  /** The "📭" notice: present exactly when there are no groups, worded by the report mode. */
  function EmptyNotice(stats: seq<ReportGroup>, mode: string): (r: string)
    ensures r != "" <==> |stats| == 0
    ensures |stats| == 0 ==> r == "📭 " + ModeText(mode) + "\n\n"
  {
    if |stats| == 0 then "📭 " + ModeText(mode) + "\n\n" else ""
  }
}

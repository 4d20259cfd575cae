/**
 * The Telegram notifier's text logic: titles rendered as HTML, messages cut
 * into batches of at most 4000 UTF-8 bytes by default, and the batch header.
 */
module Telegram {
  import opened Text
  import opened Matcher
  import opened Reporter
  import opened FileUtils
  import opened Batching
  import opened Notify

  /** The default byte limit of one message. */
  const DefaultMaxBytes := 4000

  // ---------------------------------------------------------------------------
  // The notifier's own html_escape: four replacements, `&` first, `'` kept
  // ---------------------------------------------------------------------------

  function EscapeCharOf(c: char): string {
    if c == '&' then "&amp;"
    else if c == '<' then "&lt;"
    else if c == '>' then "&gt;"
    else if c == '"' then "&quot;"
    else [c]
  }

  function EscapeEachOf(s: string): string
    decreases |s|
  {
    if |s| == 0 then [] else EscapeCharOf(s[0]) + EscapeEachOf(s[1..])
  }

  /** `html_escape` inside `_format_title`. */
  function Escape(text: string): string {
    ReplaceChar(ReplaceChar(ReplaceChar(ReplaceChar(text, '&', "&amp;"), '<', "&lt;"), '>', "&gt;"), '"', "&quot;")
  }

  lemma EscapeConcat(a: string, b: string)
    ensures Escape(a + b) == Escape(a) + Escape(b)
  {
    ReplaceCharConcat(a, b, '&', "&amp;");
    var a1, b1 := ReplaceChar(a, '&', "&amp;"), ReplaceChar(b, '&', "&amp;");
    ReplaceCharConcat(a1, b1, '<', "&lt;");
    var a2, b2 := ReplaceChar(a1, '<', "&lt;"), ReplaceChar(b1, '<', "&lt;");
    ReplaceCharConcat(a2, b2, '>', "&gt;");
    var a3, b3 := ReplaceChar(a2, '>', "&gt;"), ReplaceChar(b2, '>', "&gt;");
    ReplaceCharConcat(a3, b3, '"', "&quot;");
  }

  lemma EscapeOne(c: char)
    ensures Escape([c]) == EscapeCharOf(c)
  {
    ReplaceOne(c, '&', "&amp;");
    if c == '&' {
      LaterReplacementsKeep("&amp;", 1);
    } else {
      ReplaceOne(c, '<', "&lt;");
      if c == '<' {
        LaterReplacementsKeep("&lt;", 2);
      } else {
        ReplaceOne(c, '>', "&gt;");
        if c == '>' {
          LaterReplacementsKeep("&gt;", 3);
        } else {
          ReplaceOne(c, '"', "&quot;");
        }
      }
    }
  }

  /** As with the shared `html_escape`, `&` goes first, so no replacement is escaped again. */
  lemma {:induction false} EscapeIsPerChar(text: string)
    ensures Escape(text) == EscapeEachOf(text)
    decreases |text|
  {
    if |text| > 0 {
      assert text == [text[0]] + text[1..];
      EscapeConcat([text[0]], text[1..]);
      EscapeOne(text[0]);
      EscapeIsPerChar(text[1..]);
    }
  }

  lemma {:induction false} EscapeEachOfSafe(text: string)
    ensures '<' !in EscapeEachOf(text) && '>' !in EscapeEachOf(text) && '"' !in EscapeEachOf(text)
    decreases |text|
  {
    if |text| > 0 {
      EscapeEachOfSafe(text[1..]);
    }
  }

  /** No `<`, `>` or `"` is left, so a title cannot open a tag or close the link's attribute. */
  lemma EscapeSafe(text: string)
    ensures '<' !in Escape(text) && '>' !in Escape(text) && '"' !in Escape(text)
  {
    EscapeIsPerChar(text);
    EscapeEachOfSafe(text);
  }

  /** Unlike the shared `html_escape`, the apostrophe is left as it is. */
  lemma EscapeKeepsApostrophe()
    ensures Escape("'") == "'"
  {
    EscapeOne('\'');
  }

  lemma UnescapeOneOf(c: char, rest: string)
    ensures HtmlUnescape(EscapeCharOf(c) + rest) == [c] + HtmlUnescape(rest)
  {
    if c != '\'' {
      assert EscapeCharOf(c) == EscapeChar(c);
      UnescapeOne(c, rest);
    } else {
      UnescapeApostrophe(rest);
    }
  }

  lemma UnescapeApostrophe(rest: string)
    ensures HtmlUnescape("'" + rest) == "'" + HtmlUnescape(rest)
  {
    var s := "'" + rest;
    assert s[0] == '\'' && s[1..] == rest;
    UnescapePlain(s);
  }

  /** Decoding the entities gives the escaped text back. */
  lemma {:induction false} EscapeRoundTrip(text: string)
    ensures HtmlUnescape(Escape(text)) == text
    decreases |text|
  {
    EscapeIsPerChar(text);
    if |text| > 0 {
      EscapeRoundTrip(text[1..]);
      EscapeIsPerChar(text[1..]);
      UnescapeOneOf(text[0], EscapeEachOf(text[1..]));
    }
  }

  /**
   * What the notifier's escape means: each character escaped on its own,
   * no `<`, `>` or `"` left, and nothing lost.
   */
  lemma EscapeMeans(text: string)
    ensures Escape(text) == EscapeEachOf(text)
    ensures '<' !in Escape(text) && '>' !in Escape(text) && '"' !in Escape(text)
    ensures HtmlUnescape(Escape(text)) == text
  {
    EscapeIsPerChar(text);
    EscapeSafe(text);
    EscapeRoundTrip(text);
  }

  // ---------------------------------------------------------------------------
  // _format_title
  // ---------------------------------------------------------------------------

  /** The anchor around the escaped title, or the escaped title alone when there is no link. */
  function Anchor(shown: string, link: string): string {
    if link != "" then "<a href=\"" + link + "\">" + shown + "</a>" else shown
  }

  /** `_format_title(title_data, show_source)`, part by part. */
  function TitleParts(t: ReportTitle, showSource: bool): (l: TitleLine)
    ensures l.source != "" <==> showSource
    ensures showSource ==> l.source == "[" + Escape(t.sourceName) + "] "
    ensures l.mark != "" <==> t.isNew
    ensures t.isNew ==> l.mark == "🆕 "
    ensures t.mobileUrl != "" ==> l.headline == Anchor(Escape(CleanTitle(t.title)), t.mobileUrl)
    ensures t.mobileUrl == "" ==> l.headline == Anchor(Escape(CleanTitle(t.title)), t.url)
    ensures l.rank == "" <==> |t.ranks| == 0
    ensures |t.ranks| > 0 ==> (StartsWith(l.rank, " <b>") <==> Least(t.ranks) <= t.rankThreshold)
    ensures |t.ranks| > 0 ==> l.rank[0] == ' ' && ShowsRange(l.rank[1..], t.ranks, t.rankThreshold, "<b>", "</b>")
    ensures l.time == "" <==> t.timeDisplay == ""
    ensures t.timeDisplay != "" ==> l.time == " - " + t.timeDisplay
    ensures l.count == CountSuffix(t.count, " (", "次)")
  {
    assert " " + "<b>" == " <b>";
    TitleLine(
      if showSource then "[" + Escape(t.sourceName) + "] " else "",
      NewMark(t.isNew),
      Anchor(Escape(CleanTitle(t.title)), LinkOf(t)),
      RankSuffix(t.ranks, t.rankThreshold, "<b>", "</b>"),
      if t.timeDisplay != "" then " - " + t.timeDisplay else "",
      CountSuffix(t.count, " (", "次)"))
  }

  /** `_format_title(title_data, show_source)` */
  function FormatTitle(t: ReportTitle, showSource: bool): string {
    TitleParts(t, showSource).Text()
  }

  /**
   * The rendered title reads in the source's order: the source tag when shown,
   * the "🆕 " mark when new and the escaped cleaned title, in an anchor when there is a link, lead the line, and the count
   * closes it.
   */
  lemma FormatTitleLayout(t: ReportTitle, showSource: bool)
    ensures var r := FormatTitle(t, showSource);
      var lead := (if showSource then "[" + Escape(t.sourceName) + "] " else "") + (if t.isNew then "🆕 " else "")
        + Anchor(Escape(CleanTitle(t.title)), LinkOf(t));
      var count := CountSuffix(t.count, " (", "次)");
      && |lead| <= |r| && r[..|lead|] == lead
      && |count| <= |r| && r[|r| - |count|..] == count
  {
    TextLayout(TitleParts(t, showSource));
  }

  /** The title and the source name reach the message escaped: decoding them gives the clean text back. */
  lemma TitleTextIsEscaped(t: ReportTitle, showSource: bool)
    ensures var l := TitleParts(t, showSource);
      && (LinkOf(t) == "" ==> HtmlUnescape(l.headline) == CleanTitle(t.title))
      && (LinkOf(t) == "" ==> '<' !in l.headline && '>' !in l.headline && '"' !in l.headline)
      && (showSource ==> HtmlUnescape(l.source[1..|l.source| - 2]) == t.sourceName)
  {
    EscapeRoundTrip(CleanTitle(t.title));
    EscapeSafe(CleanTitle(t.title));
    EscapeRoundTrip(t.sourceName);
    if showSource {
      var l := TitleParts(t, showSource);
      assert l.source[1..|l.source| - 2] == Escape(t.sourceName);
    }
  }

  /** The link goes in verbatim: it is not escaped. */
  lemma LinkNotEscaped(t: ReportTitle, showSource: bool)
    requires LinkOf(t) != ""
    ensures var h := TitleParts(t, showSource).headline;
      h[9..9 + |LinkOf(t)|] == LinkOf(t)
  {
    var shown := Escape(CleanTitle(t.title));
    assert TitleParts(t, showSource).headline == Anchor(shown, LinkOf(t));
    AnchorHoldsLink(shown, LinkOf(t));
  }

  /** The link sits in the anchor right after `<a href="`. */
  lemma AnchorHoldsLink(shown: string, link: string)
    requires link != ""
    ensures Anchor(shown, link)[9..9 + |link|] == link
  {
    var a := Anchor(shown, link);
    assert a == "<a href=\"" + link + ("\">" + shown + "</a>");
  }

  // ---------------------------------------------------------------------------
  // send
  // ---------------------------------------------------------------------------

  /** The texts `send` posts for a rendered report: its batches, numbered in bold when there are several. */
  method Messages(content: string, maxBytes: int) returns (texts: seq<string>)
    ensures texts == Labelled(BatchesOf(content, maxBytes), "<b>[", "]</b>")
    ensures Utf8Len(content) <= maxBytes ==> texts == [content]
  {
    var batches := SplitIntoBatches(content, maxBytes);
    texts := Labelled(batches, "<b>[", "]</b>");
  }
}

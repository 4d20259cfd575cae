/**
 * What the snapshot format preserves: a title line and a header line read
 * back give what was written, under the conditions the format needs (no
 * marker inside a field, a non-negative rank, a clean non-empty title).
 */
module SnapshotFormat {
  import opened Wrappers
  import opened Text
  import opened Dicts
  import opened Records
  import opened FileUtils
  import opened Storage

  /** A link marker: a space, then characters that are neither spaces nor "]". */
  predicate MarkerShape(p: string) {
    && |p| >= 2 && p[0] == ' '
    && forall k :: 1 <= k < |p| ==> p[k] != ' ' && p[k] != ']'
  }

  /** Neither link marker occurs in `s`. */
  predicate MarkerFree(s: string) {
    !Contains(s, UrlMarker) && !Contains(s, MobileMarker)
  }

  lemma MarkersShaped()
    ensures MarkerShape(UrlMarker) && MarkerShape(MobileMarker)
  {
  }

  /** An occurrence in `a + b` lies in `a`, in `b`, or across the seam. */
  lemma ConcatNoOccur(a: string, b: string, p: string)
    requires MarkerShape(p) && !Contains(a, p) && !Contains(b, p)
    requires |b| > 0 ==> (b[0] == ' ' || b[0] == ']')
    ensures !Contains(a + b, p)
  {
    var s := a + b;
    forall j | 0 <= j <= |s| - |p|
      ensures !OccursAt(s, p, j)
    {
      if j + |p| <= |a| {
        assert s[j..j + |p|] == a[j..j + |p|];
        assert !OccursAt(a, p, j);
      } else if j >= |a| {
        assert s[j..j + |p|] == b[j - |a|..j - |a| + |p|];
        assert !OccursAt(b, p, j - |a|);
      } else {
        var k := |a| - j;
        assert 1 <= k < |p|;
        assert s[j..j + |p|][k] == b[0];
        assert s[j..j + |p|][k] != p[k];
      }
    }
  }

  /** A value followed by "]" holds no marker when the value holds none. */
  lemma ClosedNoOccur(v: string, p: string)
    requires MarkerShape(p) && !Contains(v, p)
    ensures !Contains(v + "]", p)
  {
    assert !OccursAt("]", p, 0);
    ConcatNoOccur(v, "]", p);
  }

  /** In `pre + p + v + "]"` the last `p` is the one right after `pre`. */
  lemma LastMarker(pre: string, p: string, v: string)
    requires MarkerShape(p) && !Contains(v, p)
    ensures CutSuffix(pre + p + v + "]", p) == (pre, v)
  {
    var tail := v + "]";
    var s := pre + p + v + "]";
    assert s == pre + p + tail;
    var n := |pre|;
    ClosedNoOccur(v, p);
    assert OccursAt(s, p, n) by {
      assert s[n..n + |p|] == p;
    }
    forall j | n < j
      ensures !OccursAt(s, p, j)
    {
      if j < n + |p| {
        assert s[j] == p[j - n];
      } else if j + |p| <= |s| {
        assert s[j..j + |p|] == tail[j - n - |p|..j - n - |p| + |p|];
        assert !OccursAt(tail, p, j - n - |p|);
      }
    }
    var i := RFind(s, p).value;
    assert i == n;
    assert s[..n] == pre && s[n + |p|..] == tail;
    assert tail[..|tail| - 1] == v;
  }

  /** Without the marker, the text is kept whole and the value is empty. */
  lemma NoMarker(s: string, p: string)
    requires !Contains(s, p)
    ensures CutSuffix(s, p) == (s, "")
  {
  }

  /** The url suffix never holds the mobile marker. */
  lemma UrlSuffixNoMobile(url: string)
    requires MarkerFree(url)
    ensures !Contains(UrlMarker + url + "]", MobileMarker)
  {
    var u := UrlMarker + url + "]";
    var p := MobileMarker;
    var tail := url + "]";
    assert u == UrlMarker + tail;
    ClosedNoOccur(url, p);
    forall j | 0 <= j <= |u| - |p|
      ensures !OccursAt(u, p, j)
    {
      if j == 0 {
        assert u[j..j + |p|][2] == 'U';
      } else if j < |UrlMarker| {
        assert u[j..j + |p|][0] == UrlMarker[j];
      } else {
        assert u[j..j + |p|] == tail[j - |UrlMarker|..j - |UrlMarker| + |p|];
        assert !OccursAt(tail, p, j - |UrlMarker|);
      }
    }
  }

  /** The rank prefix of "D. rest" is the value of the digits D. */
  lemma RankPrefix(d: string, rest: string)
    requires IsDigits(d)
    ensures SplitRank(d + ". " + rest) == (Some(DigitsValue(d)), rest)
  {
    var s := d + ". " + rest;
    var n := |d|;
    assert OccursAt(s, ". ", n) by {
      assert s[n..n + 2] == ". ";
    }
    forall j | 0 <= j < n
      ensures !OccursAt(s, ". ", j)
    {
      assert s[j] == d[j];
      assert s[j..j + 2][0] == s[j];
    }
    var i := Find(s, ". ").value;
    assert i == n;
    assert s[..n] == d && s[n + 2..] == rest;
  }

  /** The url and mobile suffixes of a written line, for a non-empty link. */
  function LinkSuffix(marker: string, link: string): string {
    if link != "" then marker + link + "]" else ""
  }

  /** Cutting the mobile suffix off "title + url part + mobile part" leaves "title + url part". */
  lemma CutMobile(title: string, url: string, mobileUrl: string)
    requires MarkerFree(title) && MarkerFree(url) && MarkerFree(mobileUrl)
    ensures CutSuffix(title + LinkSuffix(UrlMarker, url) + LinkSuffix(MobileMarker, mobileUrl), MobileMarker)
         == (title + LinkSuffix(UrlMarker, url), mobileUrl)
  {
    MarkersShaped();
    var us := LinkSuffix(UrlMarker, url);
    if mobileUrl != "" {
      assert title + us + LinkSuffix(MobileMarker, mobileUrl) == (title + us) + MobileMarker + mobileUrl + "]";
      LastMarker(title + us, MobileMarker, mobileUrl);
    } else {
      assert title + us + LinkSuffix(MobileMarker, mobileUrl) == title + us;
      if url != "" {
        UrlSuffixNoMobile(url);
        ConcatNoOccur(title, us, MobileMarker);
      } else {
        assert title + us == title;
      }
      NoMarker(title + us, MobileMarker);
    }
  }

  /** Cutting the url suffix off "title + url part" leaves the title. */
  lemma CutUrl(title: string, url: string)
    requires MarkerFree(title) && MarkerFree(url)
    ensures CutSuffix(title + LinkSuffix(UrlMarker, url), UrlMarker) == (title, url)
  {
    MarkersShaped();
    if url != "" {
      assert title + LinkSuffix(UrlMarker, url) == title + UrlMarker + url + "]";
      LastMarker(title, UrlMarker, url);
    } else {
      assert title + LinkSuffix(UrlMarker, url) == title;
      NoMarker(title, UrlMarker);
    }
  }

  /** The line as the writer assembles it, grouped as the parser takes it apart. */
  lemma LineShape(e: LineEntry)
    ensures TitleLine(e) == IntToString(e.rank) + ". " + (e.title + LinkSuffix(UrlMarker, e.url) + LinkSuffix(MobileMarker, e.mobileUrl))
  {
  }

  /** A written line starts with a digit and, for a clean non-empty title, ends in no whitespace. */
  lemma LineUnstripped(e: LineEntry)
    requires e.rank >= 0 && e.title != "" && IsClean(e.title)
    ensures Strip(TitleLine(e)) == TitleLine(e)
  {
    var line := TitleLine(e);
    var d := IntToString(e.rank);
    LineShape(e);
    assert line[0] == d[0];
    var last := line[|line| - 1];
    if e.mobileUrl != "" {
      assert last == ']';
    } else if e.url != "" {
      assert last == ']';
    } else {
      assert last == e.title[|e.title| - 1];
    }
    StripUnchanged(line);
  }

  /**
   * A title line read back gives the written title with its rank as the only
   * rank and the same links, for a non-negative rank, a clean non-empty title
   * and fields that hold neither link marker.
   */
  lemma LineRoundTrip(e: LineEntry)
    requires e.rank >= 0 && e.title != "" && IsClean(e.title)
    requires MarkerFree(e.title) && MarkerFree(e.url) && MarkerFree(e.mobileUrl)
    ensures ParseTitleLine(TitleLine(e)) == Some((e.title, TitleData([e.rank], e.url, e.mobileUrl)))
  {
    var line := TitleLine(e);
    var rest := e.title + LinkSuffix(UrlMarker, e.url) + LinkSuffix(MobileMarker, e.mobileUrl);
    LineShape(e);
    LineUnstripped(e);
    RankPrefix(IntToString(e.rank), rest);
    NatToStringRoundTrip(e.rank);
    CutMobile(e.title, e.url, e.mobileUrl);
    CutUrl(e.title, e.url);
    StripUnchanged(e.title);
    CleanTitleFixes(e.title);
  }

  /**
   * An empty title with no links is written as "R. ", which reads back as the
   * title "R." with the default rank.
   */
  lemma EmptyTitleLine()
    ensures TitleLine(LineEntry(3, "", "", "")) == "3. "
    ensures ParseTitleLine(TitleLine(LineEntry(3, "", "", ""))) == Some(("3.", TitleData([1], "", "")))
  {
    RankOnlyLine();
    RankOnlyParse();
  }

  /** The line written for rank 3 and an empty title with no links. */
  lemma RankOnlyLine()
    ensures TitleLine(LineEntry(3, "", "", "")) == "3. "
  {
    assert NatToString(3) == "3";
  }

  /** The line "3. " reads back as the title "3." with the default rank and no links. */
  lemma RankOnlyParse()
    ensures ParseTitleLine("3. ") == Some(("3.", TitleData([1], "", "")))
  {
    RankOnlyPieces();
  }

  /** The pieces the parser cuts "3. " into: no rank, no links, and the clean title "3.". */
  lemma RankOnlyPieces()
    ensures Strip("3. ") == "3."
    ensures SplitRank("3.") == (None, "3.")
    ensures CutSuffix("3.", MobileMarker) == ("3.", "") && CutSuffix("3.", UrlMarker) == ("3.", "")
    ensures CleanTitle(Strip("3.")) == "3."
  {
    assert Strip("3. ") == "3." by {
      assert StripLeft("3. ") == "3. ";
      assert StripRight("3. ") == "3.";
    }
    assert SplitRank("3.") == (None, "3.") by {
      assert !Contains("3.", ". ");
    }
    assert !Contains("3.", MobileMarker) && !Contains("3.", UrlMarker);
    assert Strip("3.") == "3." by {
      assert StripLeft("3.") == "3.";
    }
    assert IsClean("3.");
    CleanTitleFixes("3.");
  }

  /** The header read back gives the id and, when one was written, the name; else the id names itself. */
  lemma HeaderRoundTrip(id: string, idToName: map<string, string>)
    requires id != "" && Strip(id) == id
    requires !Contains(id, " | ") && !EndsWith(id, " |")
    requires id in idToName ==> Strip(idToName[id]) == idToName[id]
    ensures ParseHeader(HeaderLine(id, idToName))
         == if id in idToName && idToName[id] != "" && idToName[id] != id then (id, idToName[id]) else (id, id)
  {
    if id in idToName && idToName[id] != "" && idToName[id] != id {
      var name := idToName[id];
      var h := id + " | " + name;
      HeaderStripped(id, name);
      FirstSeparator(id, name);
      assert h[..|id|] == id && h[|id| + 3..] == name;
    }
  }

  /** A header "id | name" with stripped id and name is left as it is by stripping. */
  lemma HeaderStripped(id: string, name: string)
    requires id != "" && Strip(id) == id && name != "" && Strip(name) == name
    ensures Strip(id + " | " + name) == id + " | " + name
  {
    var h := id + " | " + name;
    StripLeftShape(id);
    StripRightShape(StripLeft(id));
    StripLeftShape(name);
    StripRightShape(StripLeft(name));
    assert !IsSpace(h[0]) && !IsSpace(h[|h| - 1]);
    StripUnchanged(h);
  }

  /** The first " | " of "id | name" is the one after the id, when the id holds none and does not end in " |". */
  lemma FirstSeparator(id: string, name: string)
    requires !Contains(id, " | ") && !EndsWith(id, " |")
    ensures Find(id + " | " + name, " | ") == Some(|id|)
  {
    var h := id + " | " + name;
    var n := |id|;
    assert OccursAt(h, " | ", n) by {
      assert h[n..n + 3] == " | ";
    }
    forall j | 0 <= j < n
      ensures !OccursAt(h, " | ", j)
    {
      if j + 3 <= n {
        assert id[j..j + 3] == h[j..j + 3];
        assert !OccursAt(id, " | ", j);
      } else if j == n - 1 {
        assert h[j..j + 3][1] == h[n];
      } else {
        assert id[n - 2..] == [id[n - 2], id[n - 1]];
        assert h[j..j + 3][0] == id[n - 2] && h[j..j + 3][1] == id[n - 1];
        assert " |" == [' ', '|'];
      }
    }
    assert Contains(h, " | ");
  }

  /** The titles the lines of `es` give: each title mapped to its rank and links, a later line winning. */
  function EntriesTitles(es: seq<LineEntry>): (r: Titles)
    ensures r.Valid()
    decreases |es|
  {
    if |es| == 0 then Empty()
    else
      var e := es[|es| - 1];
      EntriesTitles(es[..|es| - 1]).Put(e.title, TitleData([e.rank], e.url, e.mobileUrl))
  }

  /** The titles read back are exactly the titles of the lines. */
  lemma {:induction false} EntriesTitlesKeys(es: seq<LineEntry>)
    ensures forall t :: t in EntriesTitles(es).vals <==> exists i :: 0 <= i < |es| && es[i].title == t
    decreases |es|
  {
    if |es| > 0 {
      var front := es[..|es| - 1];
      var last := es[|es| - 1];
      EntriesTitlesKeys(front);
      assert forall t :: t in EntriesTitles(es).vals <==> t in EntriesTitles(front).vals || t == last.title;
      forall t | t in EntriesTitles(front).vals
        ensures exists i :: 0 <= i < |es| && es[i].title == t
      {
        var i :| 0 <= i < |front| && front[i].title == t;
        assert es[i] == front[i];
      }
      forall t | exists i :: 0 <= i < |es| && es[i].title == t
        ensures t in EntriesTitles(es).vals
      {
        var i :| 0 <= i < |es| && es[i].title == t;
        if i < |front| {
          assert front[i] == es[i];
          assert t in EntriesTitles(front).vals;
        }
      }
    }
  }

  /** Each title carries the rank and links of the last line that holds it. */
  lemma {:induction false} EntriesTitlesLastWins(es: seq<LineEntry>, i: nat)
    requires i < |es| && forall j :: i < j < |es| ==> es[j].title != es[i].title
    ensures es[i].title in EntriesTitles(es).vals
    ensures EntriesTitles(es).vals[es[i].title] == TitleData([es[i].rank], es[i].url, es[i].mobileUrl)
    decreases |es|
  {
    if i < |es| - 1 {
      var front := es[..|es| - 1];
      assert front[i] == es[i];
      EntriesTitlesLastWins(front, i);
    }
  }


  function LinesOf(es: seq<LineEntry>): (r: seq<string>)
    ensures |r| == |es|
  {
    seq(|es|, i requires 0 <= i < |es| => TitleLine(es[i]))
  }

  /** Predicate form of the line conditions of `LineRoundTrip`. */
  predicate Writable(e: LineEntry) {
    e.rank >= 0 && e.title != "" && IsClean(e.title)
    && MarkerFree(e.title) && MarkerFree(e.url) && MarkerFree(e.mobileUrl)
  }

  /** A section's lines read back give every title with its written rank and links; a repeated title keeps its last line. */
  lemma {:induction false} LinesRoundTrip(es: seq<LineEntry>)
    requires forall i :: 0 <= i < |es| ==> Writable(es[i])
    ensures ParseLines(LinesOf(es)) == EntriesTitles(es)
    decreases |es|
  {
    if |es| > 0 {
      var front := es[..|es| - 1];
      assert LinesOf(es)[..|es| - 1] == LinesOf(front);
      LinesRoundTrip(front);
      LineRoundTrip(es[|es| - 1]);
    }
  }

  lemma LinesOfSnoc(es: seq<LineEntry>)
    requires |es| > 0
    ensures LinesOf(es) == LinesOf(es[..|es| - 1]) + [TitleLine(es[|es| - 1])]
  {
  }

  /** The lines of `es` as the writer puts them: joined by line breaks, with one more after the last. */
  lemma {:induction false} LinesTextJoined(es: seq<LineEntry>)
    requires |es| > 0
    ensures LinesText(es) == Join(LinesOf(es), "\n") + "\n"
    decreases |es|
  {
    var front := es[..|es| - 1];
    var last := TitleLine(es[|es| - 1]);
    assert LinesText(es) == LinesText(front) + last + "\n";
    LinesOfSnoc(es);
    if |es| == 1 {
      assert LinesText(front) == "";
      assert LinesOf(es) == [last];
    } else {
      LinesTextJoined(front);
      var lf := LinesOf(front);
      JoinSnoc(lf, last, "\n");
      assert LinesText(es) == Join(lf, "\n") + "\n" + last + "\n";
    }
  }

  /** A written line holds no line break when its links hold none. */
  lemma LineHasNoBreak(e: LineEntry)
    requires IsClean(e.title) && '\n' !in e.url && '\n' !in e.mobileUrl
    ensures '\n' !in TitleLine(e)
  {
    NoLineBreaks(e.title);
    var d := IntToString(e.rank);
    IntToStringRoundTrip(e.rank);
    forall k | 0 <= k < |d|
      ensures d[k] != '\n'
    {
      if !IsDigits(d) && k > 0 {
        assert d[k] == d[1..][k - 1];
      }
    }
    LineShape(e);
  }

  /** `s` followed by a blank line strips to `s` when `s` has no whitespace at either end. */
  lemma StripTrailingBreaks(s: string)
    requires |s| > 0 && !IsSpace(s[0]) && !IsSpace(s[|s| - 1])
    ensures Strip(s + "\n\n") == s
  {
    var t := s + "\n\n";
    assert StripLeft(t) == t;
    assert t[..|t| - 1] == s + "\n" && (s + "\n")[..|s|] == s;
    assert StripRight(t) == StripRight(s + "\n") == StripRight(s);
  }

  /** What a title line needs, besides `Writable`, to survive inside a section. */
  predicate SectionWritable(e: LineEntry) {
    Writable(e) && '\n' !in e.url && '\n' !in e.mobileUrl && !Contains(TitleLine(e), FailedMarker)
  }

  /**
   * A header line and title lines joined by line breaks, then a blank line,
   * read back as the header's id and name and the titles of the lines,
   * when no line holds a break or the failed-request marker and the text has
   * no whitespace at either end.
   */
  lemma JoinedSectionParses(h: string, lines: seq<string>)
    requires |h| > 0 && !IsSpace(h[0]) && '\n' !in h && !Contains(h, FailedMarker)
    requires |lines| > 0 && forall i :: 0 <= i < |lines| ==> '\n' !in lines[i] && !Contains(lines[i], FailedMarker)
    requires var last := lines[|lines| - 1]; |last| > 0 && !IsSpace(last[|last| - 1])
    ensures ParseSection(Join([h] + lines, "\n") + "\n\n")
         == Some(Section(ParseHeader(h).0, ParseHeader(h).1, ParseLines(lines)))
  {
    var parts := [h] + lines;
    assert forall i :: 0 < i < |parts| ==> parts[i] == lines[i - 1];
    assert parts[1..] == lines;
    var j := Join(parts, "\n");
    var last := parts[|parts| - 1];
    assert Strip(j + "\n\n") == j by {
      assert parts == parts[..|parts| - 1] + [last];
      JoinSnoc(parts[..|parts| - 1], last, "\n");
      assert j[0] == parts[0][0];
      assert j[|j| - 1] == last[|last| - 1];
      StripTrailingBreaks(j);
    }
    assert Split(j, "\n") == parts by {
      SplitJoinLines(parts);
    }
    assert |FailedMarker| > 0 && '\n' !in FailedMarker;
    JoinLinesEndNoOccur(parts, FailedMarker);
    ParseSectionOf(j + "\n\n", parts);
  }

  /** A section that is not skipped is its first line's header and the titles of the other lines. */
  lemma ParseSectionOf(section: string, lines: seq<string>)
    requires Strip(section) != "" && !Contains(section, FailedMarker)
    requires Split(Strip(section), "\n") == lines && |lines| >= 2
    ensures ParseSection(section) == Some(Section(ParseHeader(lines[0]).0, ParseHeader(lines[0]).1, ParseLines(lines[1..])))
  {
  }

  /** The lines of entries fit for a section hold neither a line break nor the failed-request marker. */
  lemma LinesSafe(es: seq<LineEntry>)
    requires forall i :: 0 <= i < |es| ==> SectionWritable(es[i])
    ensures forall i :: 0 <= i < |es| ==> '\n' !in LinesOf(es)[i] && !Contains(LinesOf(es)[i], FailedMarker)
  {
    forall i | 0 <= i < |es|
      ensures '\n' !in LinesOf(es)[i] && !Contains(LinesOf(es)[i], FailedMarker)
    {
      LineHasNoBreak(es[i]);
    }
  }

  /** The last written line is non-empty and ends in no whitespace. */
  lemma LastLineUnstripped(es: seq<LineEntry>)
    requires |es| > 0 && Writable(es[|es| - 1])
    ensures var last := LinesOf(es)[|es| - 1]; |last| > 0 && !IsSpace(last[|last| - 1])
  {
    var e := es[|es| - 1];
    var last := TitleLine(e);
    assert LinesOf(es)[|es| - 1] == last;
    LineUnstripped(e);
    assert |last| > 0 by {
      LineShape(e);
    }
    StrippedLast(last);
  }

  /** A section is its header and its lines joined by line breaks, then a blank line. */
  lemma SectionJoined(h: string, es: seq<LineEntry>)
    requires |es| > 0
    ensures h + "\n" + LinesText(es) + "\n" == Join([h] + LinesOf(es), "\n") + "\n\n"
  {
    LinesTextJoined(es);
    JoinUnderHeader(h, LinesOf(es), LinesText(es));
  }

  /**
   * A section written as a header, title lines and a blank line reads back as
   * the header's id and name and the titles of its lines.
   */
  lemma SectionParses(h: string, es: seq<LineEntry>)
    requires |h| > 0 && !IsSpace(h[0]) && '\n' !in h && !Contains(h, FailedMarker)
    requires |es| > 0 && forall i :: 0 <= i < |es| ==> SectionWritable(es[i])
    ensures ParseSection(h + "\n" + LinesText(es) + "\n")
         == Some(Section(ParseHeader(h).0, ParseHeader(h).1, ParseLines(LinesOf(es))))
  {
    SectionJoined(h, es);
    LinesSafe(es);
    LastLineUnstripped(es);
    JoinedSectionParses(h, LinesOf(es));
  }

  /** The name a header line carries: the known name when one is written, else the id. */
  function WrittenName(id: string, idToName: map<string, string>): string {
    if id in idToName && idToName[id] != "" && idToName[id] != id then idToName[id] else id
  }

  /**
   * A platform's section read back gives its id, the name its header carries
   * and every written title with its first rank and links, for a platform with
   * titles whose header and lines the format can hold.
   */
  lemma SectionRoundTrip(id: string, idToName: map<string, string>, titles: Titles)
    requires titles.Valid() && |titles.keys| > 0
    requires id != "" && Strip(id) == id && !Contains(id, " | ") && !EndsWith(id, " |")
    requires id in idToName ==> Strip(idToName[id]) == idToName[id]
    requires '\n' !in HeaderLine(id, idToName) && !Contains(HeaderLine(id, idToName), FailedMarker)
    requires forall e | e in SortedEntries(titles) :: SectionWritable(e)
    ensures ParseSection(SectionText(id, idToName, titles))
         == Some(Section(id, WrittenName(id, idToName), EntriesTitles(SortedEntries(titles))))
  {
    var es := SortedEntries(titles);
    var h := HeaderLine(id, idToName);
    SectionOrder(titles);
    assert |es| == |EntriesOf(titles, |titles.keys|)| by {
      assert |multiset(es)| == |multiset(EntriesOf(titles, |titles.keys|))|;
    }
    HeaderRoundTrip(id, idToName);
    StripIdempotent(id);
    assert h[0] == id[0];
    forall i | 0 <= i < |es|
      ensures SectionWritable(es[i])
    {
      assert es[i] in es;
    }
    SectionParses(h, es);
    LinesRoundTrip(es);
  }

  /** A section of a single line, such as the header of a platform with no titles, is skipped. */
  lemma OneLineSectionSkipped(h: string)
    requires '\n' !in h
    ensures ParseSection(h) == None
  {
    var t := Strip(h);
    if t != "" && !Contains(h, FailedMarker) {
      StripLeftShape(h);
      StripRightShape(StripLeft(h));
      assert t == h[|h| - |StripLeft(h)|..][..|t|];
      forall j | 0 <= j < |t|
        ensures !OccursAt(t, "\n", j)
      {
        assert t[j] in h;
        assert t[j..j + 1][0] == t[j];
      }
      assert !Contains(t, "\n");
      assert Split(t, "\n") == [t];
    }
  }

  /** The section holding the failed-request list is skipped. */
  lemma FailedSectionSkipped(failedIds: seq<string>)
    requires |failedIds| > 0
    ensures ParseSection(FailedText(failedIds)) == None
  {
    var s := FailedText(failedIds);
    assert OccursAt(s, FailedMarker, 0) by {
      assert s[..|FailedMarker|] == FailedMarker;
    }
  }

  /** A platform with no titles is written as its header and a blank line. */
  lemma NoTitlesSection(id: string, idToName: map<string, string>, titles: Titles)
    requires titles.Valid() && titles.keys == []
    ensures SectionText(id, idToName, titles) == HeaderLine(id, idToName) + "\n\n"
  {
  }
}

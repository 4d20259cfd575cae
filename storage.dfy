/**
 * The text snapshot of one crawl round: writing it, reading it back, and
 * folding all of a day's snapshots into the day's dataset. A snapshot holds
 * one section per platform (an "id" or "id | name" header, then one
 * "rank. title [URL:...] [MOBILE:...]" line per title, then a blank line) and
 * optionally a list of the platforms whose request failed.
 */
module Storage {
  import opened Wrappers
  import opened Text
  import opened Dicts
  import opened Records
  import opened Sorting
  import opened FileUtils
  import opened Analyzer

  const UrlMarker := " [URL:"
  const MobileMarker := " [MOBILE:"
  const FailedMarker := "==== 以下ID请求失败 ===="

  // ---------------------------------------------------------------------------
  // Writing
  // ---------------------------------------------------------------------------

  /** The header: "id | name" when a non-empty name other than the id is known, else "id". */
  function HeaderLine(id: string, idToName: map<string, string>): string {
    if id in idToName && idToName[id] != "" && idToName[id] != id then id + " | " + idToName[id] else id
  }

  /** One title as it is about to be written. */
  datatype LineEntry = LineEntry(rank: int, title: string, url: string, mobileUrl: string)

  /** A title's first rank, or 1 when it has none. */
  function FirstRank(ranks: seq<int>): int {
    if |ranks| > 0 then ranks[0] else 1
  }

  function EntryOf(title: string, d: TitleData): LineEntry {
    LineEntry(FirstRank(d.ranks), CleanTitle(title), d.url, d.mobileUrl)
  }

  /** Every title in the order has its data. */
  predicate KeysHeld(titles: Titles) {
    forall i :: 0 <= i < |titles.keys| ==> titles.keys[i] in titles.vals
  }

  /** The entries of the first `n` titles, in order. */
  function EntriesOf(titles: Titles, n: nat): (r: seq<LineEntry>)
    requires KeysHeld(titles) && n <= |titles.keys|
    ensures |r| == n
    ensures forall i :: 0 <= i < n ==> r[i] == EntryOf(titles.keys[i], titles.vals[titles.keys[i]])
  {
    if n == 0 then []
    else
      var x := titles.keys[n - 1];
      EntriesOf(titles, n - 1) + [EntryOf(x, titles.vals[x])]
  }

  function RankKey(e: LineEntry): real {
    e.rank as real
  }

  /** The entries of one platform in the order they are written: by first rank, ties in dictionary order. */
  function SortedEntries(titles: Titles): seq<LineEntry>
    requires titles.Valid()
  {
    InsertionSort(EntriesOf(titles, |titles.keys|), RankKey)
  }

  /** "rank. title", then " [URL:u]" for a non-empty url and " [MOBILE:m]" for a non-empty mobile url. */
  function TitleLine(e: LineEntry): string {
    IntToString(e.rank) + ". " + e.title
    + (if e.url != "" then UrlMarker + e.url + "]" else "")
    + (if e.mobileUrl != "" then MobileMarker + e.mobileUrl + "]" else "")
  }

  /** Each entry's line, each ended by a line break. */
  function LinesText(es: seq<LineEntry>): string
    decreases |es|
  {
    if |es| == 0 then "" else LinesText(es[..|es| - 1]) + TitleLine(es[|es| - 1]) + "\n"
  }

  /** One platform's section: header, title lines, blank line. */
  function SectionText(id: string, idToName: map<string, string>, titles: Titles): string
    requires titles.Valid()
  {
    HeaderLine(id, idToName) + "\n" + LinesText(SortedEntries(titles)) + "\n"
  }

  /** The sections of the platforms `ids`, in order. */
  function SectionsText(results: Results, idToName: map<string, string>, ids: seq<string>): string
    requires ValidResults(results)
    requires forall i :: 0 <= i < |ids| ==> ids[i] in results.vals
    decreases |ids|
  {
    if |ids| == 0 then ""
    else
      var p := ids[|ids| - 1];
      SectionsText(results, idToName, ids[..|ids| - 1]) + SectionText(p, idToName, results.vals[p])
  }

  /** One line per id, each ended by a line break. */
  function IdLines(ids: seq<string>): string
    decreases |ids|
  {
    if |ids| == 0 then "" else IdLines(ids[..|ids| - 1]) + ids[|ids| - 1] + "\n"
  }

  /** The failed-request list, written only when some request failed. */
  function FailedText(failedIds: seq<string>): string {
    if |failedIds| == 0 then "" else FailedMarker + "\n" + IdLines(failedIds)
  }

  /** The whole snapshot `save_titles_to_file` writes. */
  function SnapshotText(results: Results, idToName: map<string, string>, failedIds: seq<string>): string
    requires ValidResults(results)
  {
    SectionsText(results, idToName, results.keys) + FailedText(failedIds)
  }

  /** The titles of one platform are written by ascending first rank; titles with equal ranks keep their order. */
  lemma SectionOrder(titles: Titles)
    requires titles.Valid()
    ensures SortedBy(SortedEntries(titles), RankKey)
    ensures multiset(SortedEntries(titles)) == multiset(EntriesOf(titles, |titles.keys|))
    ensures forall w :: Where(SortedEntries(titles), RankKey, w) == Where(EntriesOf(titles, |titles.keys|), RankKey, w)
  {
    InsertionSortFacts(EntriesOf(titles, |titles.keys|), RankKey);
  }

  /** The entries of one platform, in dictionary order. */
  method CollectEntries(titles: Titles) returns (entries: seq<LineEntry>)
    requires titles.Valid()
    ensures entries == EntriesOf(titles, |titles.keys|)
  {
    entries := [];
    var k := 0;
    while k < |titles.keys|
      invariant 0 <= k <= |titles.keys|
      invariant entries == EntriesOf(titles, k)
    {
      var title := titles.keys[k];
      var d := titles.vals[title];
      assert EntriesOf(titles, k + 1) == EntriesOf(titles, k) + [EntryOf(title, d)];
      entries := entries + [EntryOf(title, d)];
      k := k + 1;
    }
  }

  /** The entries of one platform, built and then sorted by first rank. */
  method SortedTitles(titles: Titles) returns (sorted: seq<LineEntry>)
    requires titles.Valid()
    ensures sorted == SortedEntries(titles)
  {
    var entries := CollectEntries(titles);
    sorted := SortBy(entries, RankKey);
  }

  /** One title's line. */
  method FormatLine(e: LineEntry) returns (line: string)
    ensures line == TitleLine(e)
  {
    line := IntToString(e.rank) + ". " + e.title;
    if e.url != "" {
      line := line + (UrlMarker + e.url + "]");
    }
    if e.mobileUrl != "" {
      line := line + (MobileMarker + e.mobileUrl + "]");
    }
  }

  /** The title lines of one section. */
  method WriteLines(sorted: seq<LineEntry>) returns (text: string)
    ensures text == LinesText(sorted)
  {
    text := "";
    var j := 0;
    while j < |sorted|
      invariant 0 <= j <= |sorted|
      invariant text == LinesText(sorted[..j])
    {
      assert sorted[..j + 1][..j] == sorted[..j];
      var line := FormatLine(sorted[j]);
      assert LinesText(sorted[..j + 1]) == LinesText(sorted[..j]) + TitleLine(sorted[j]) + "\n";
      text := text + line + "\n";
      j := j + 1;
    }
    assert sorted[..j] == sorted;
  }

  /** One platform's section. */
  method WriteSection(id: string, idToName: map<string, string>, titles: Titles) returns (text: string)
    requires titles.Valid()
    ensures text == SectionText(id, idToName, titles)
  {
    var name := if id in idToName then idToName[id] else "";
    if name != "" && name != id {
      text := id + " | " + name + "\n";
    } else {
      text := id + "\n";
    }
    var sorted := SortedTitles(titles);
    var lines := WriteLines(sorted);
    text := text + lines + "\n";
  }

  /** The failed-request list. */
  method WriteFailed(failedIds: seq<string>) returns (text: string)
    ensures text == FailedText(failedIds)
  {
    text := "";
    if |failedIds| > 0 {
      text := FailedMarker + "\n";
      var j := 0;
      while j < |failedIds|
        invariant 0 <= j <= |failedIds|
        invariant text == FailedMarker + "\n" + IdLines(failedIds[..j])
      {
        assert failedIds[..j + 1][..j] == failedIds[..j];
        text := text + (failedIds[j] + "\n");
        j := j + 1;
      }
      assert failedIds[..j] == failedIds;
    }
  }

  /** The sections of the platforms `ids`, one after the other. */
  method WriteSections(results: Results, idToName: map<string, string>, ids: seq<string>) returns (content: string)
    requires ValidResults(results)
    requires forall k :: 0 <= k < |ids| ==> ids[k] in results.vals
    ensures content == SectionsText(results, idToName, ids)
  {
    content := "";
    var i := 0;
    while i < |ids|
      invariant 0 <= i <= |ids|
      invariant content == SectionsText(results, idToName, ids[..i])
    {
      var id := ids[i];
      var section := WriteSection(id, idToName, results.vals[id]);
      SectionsTextSnoc(results, idToName, ids, i);
      content := content + section;
      i := i + 1;
    }
    assert ids[..i] == ids;
  }

  /** One more platform appends its section. */
  lemma SectionsTextSnoc(results: Results, idToName: map<string, string>, ids: seq<string>, i: nat)
    requires ValidResults(results)
    requires i < |ids| && forall k :: 0 <= k < |ids| ==> ids[k] in results.vals
    ensures SectionsText(results, idToName, ids[..i + 1])
      == SectionsText(results, idToName, ids[..i]) + SectionText(ids[i], idToName, results.vals[ids[i]])
  {
    assert ids[..i + 1][..i] == ids[..i];
  }

  /** `save_titles_to_file`: the text written, with the file itself left out. */
  method SaveTitles(results: Results, idToName: map<string, string>, failedIds: seq<string>) returns (content: string)
    requires ValidResults(results)
    ensures content == SnapshotText(results, idToName, failedIds)
  {
    var sections := WriteSections(results, idToName, results.keys);
    var failed := WriteFailed(failedIds);
    content := sections + failed;
  }

  // ---------------------------------------------------------------------------
  // Reading
  // ---------------------------------------------------------------------------

  /**
   * The text before the last `marker` and the value after it: the value is
   * what follows the marker less a closing "]", or "" when there is no
   * closing "]". Without the marker the text is kept whole.
   */
  function CutSuffix(s: string, marker: string): (string, string) {
    match RSplitOnce(s, marker)
    case None => (s, "")
    case Some((before, after)) => (before, if EndsWith(after, "]") then after[..|after| - 1] else "")
  }

  /** The rank prefix: the digits before the first ". ", when they are all digits. */
  function SplitRank(s: string): (Option<nat>, string) {
    match SplitOnce(s, ". ")
    case None => (None, s)
    case Some((digits, rest)) => if IsDigits(digits) then (Some(DigitsValue(digits)), rest) else (None, s)
  }

  /** One title line: nothing for a blank line, else the cleaned title and its single rank and links. */
  function ParseTitleLine(line: string): (r: Option<(string, TitleData)>)
    ensures r.None? <==> Strip(line) == ""
    ensures r.Some? ==> IsClean(r.value.0) && |r.value.1.ranks| == 1
  {
    var part := Strip(line);
    if part == "" then None
    else
      var (rank, rest) := SplitRank(part);
      var (rest2, mobileUrl) := CutSuffix(rest, MobileMarker);
      var (rest3, url) := CutSuffix(rest2, UrlMarker);
      var title := CleanTitle(Strip(rest3));
      CleanTitleIsClean(Strip(rest3));
      Some((title, TitleData([rank.GetOr(1)], url, mobileUrl)))
  }

  /** The header: "id | name" splits at the first " | ", anything else names itself. */
  function ParseHeader(line: string): (string, string) {
    var h := Strip(line);
    match SplitOnce(h, " | ")
    case Some((id, name)) => (Strip(id), Strip(name))
    case None => (h, h)
  }

  /** The titles of a section's lines; a later line for the same title replaces the earlier one. */
  function ParseLines(lines: seq<string>): (r: Titles)
    ensures r.Valid()
    decreases |lines|
  {
    if |lines| == 0 then Empty()
    else
      match ParseTitleLine(lines[|lines| - 1])
      case None => ParseLines(lines[..|lines| - 1])
      case Some((title, d)) => ParseLines(lines[..|lines| - 1]).Put(title, d)
  }

  /** One parsed platform section. */
  datatype Section = Section(id: string, name: string, titles: Titles)

  /**
   * A section, or nothing when it is blank, holds the failed-request marker or
   * has no line after its header.
   */
  function ParseSection(section: string): (r: Option<Section>)
    ensures r.Some? ==> r.value.titles.Valid()
  {
    if Strip(section) == "" || Contains(section, FailedMarker) then None
    else
      var lines := Split(Strip(section), "\n");
      if |lines| < 2 then None
      else
        var (id, name) := ParseHeader(lines[0]);
        Some(Section(id, name, ParseLines(lines[1..])))
  }

  /** The sections folded into titles by id and names by id; a later section of the same id replaces it. */
  function ParseSections(sections: seq<string>): (r: (Results, map<string, string>))
    ensures ValidResults(r.0)
    decreases |sections|
  {
    if |sections| == 0 then (Empty(), map[])
    else
      var acc := ParseSections(sections[..|sections| - 1]);
      match ParseSection(sections[|sections| - 1])
      case None => acc
      case Some(s) => (acc.0.Put(s.id, s.titles), acc.1[s.id := s.name])
  }

  /** `parse_file_titles` on the file's text: sections are separated by blank lines. */
  function ParseSnapshot(content: string): (Results, map<string, string>) {
    ParseSections(Split(content, "\n\n"))
  }

  /** The title lines of one section. */
  method ParseSectionLines(lines: seq<string>) returns (titles: Titles)
    ensures titles == ParseLines(lines)
  {
    titles := Empty();
    var k := 0;
    while k < |lines|
      invariant 0 <= k <= |lines|
      invariant titles == ParseLines(lines[..k])
    {
      ParseLinesStep(lines, k);
      var parsed := ParseTitleLine(lines[k]);
      if parsed.Some? {
        titles := titles.Put(parsed.value.0, parsed.value.1);
      }
      k := k + 1;
    }
    assert lines[..k] == lines;
  }

  /** One line more: its title, when it has one, is written over the titles so far. */
  lemma ParseLinesStep(lines: seq<string>, k: nat)
    requires k < |lines|
    ensures ParseLines(lines[..k + 1])
         == match ParseTitleLine(lines[k])
            case None => ParseLines(lines[..k])
            case Some((title, d)) => ParseLines(lines[..k]).Put(title, d)
  {
    assert lines[..k + 1][..k] == lines[..k];
  }

  /** One section: header first, then an empty title dictionary filled line by line. */
  method ParseSectionText(section: string) returns (parsed: Option<Section>)
    ensures parsed == ParseSection(section)
  {
    if Strip(section) == "" || Contains(section, FailedMarker) {
      return None;
    }
    var lines := Split(Strip(section), "\n");
    if |lines| < 2 {
      return None;
    }
    var (id, name) := ParseHeader(lines[0]);
    var titles := ParseSectionLines(lines[1..]);
    parsed := Some(Section(id, name, titles));
  }

  /** `parse_file_titles`: the file's text is passed in. */
  method ParseFileTitles(content: string) returns (titlesById: Results, idToName: map<string, string>)
    ensures (titlesById, idToName) == ParseSnapshot(content)
    ensures ValidResults(titlesById)
  {
    var sections := Split(content, "\n\n");
    titlesById := Empty();
    idToName := map[];
    var i := 0;
    while i < |sections|
      invariant 0 <= i <= |sections|
      invariant (titlesById, idToName) == ParseSections(sections[..i])
    {
      assert sections[..i + 1][..i] == sections[..i];
      var parsed := ParseSectionText(sections[i]);
      assert sections[..i + 1][i] == sections[i];
      if parsed.Some? {
        var s := parsed.value;
        idToName := idToName[s.id := s.name];
        titlesById := titlesById.Put(s.id, s.titles);
      }
      i := i + 1;
    }
    assert sections[..i] == sections;
  }

  // ---------------------------------------------------------------------------
  // The day's snapshots
  // ---------------------------------------------------------------------------

  /** Only the listed platforms, and names only for those, when a platform list is given. */
  function FilterRound(titles: Results, names: map<string, string>, ids: Option<seq<string>>): (r: (Results, map<string, string>))
    requires ValidResults(titles)
    ensures ValidResults(r.0)
    ensures ids.Some? ==> forall p :: (p in r.0.vals || p in r.1) ==> p in ids.value
    ensures ids.None? ==> r == (titles, names)
    ensures ids.Some? ==> forall p :: p in r.0.vals <==> p in titles.vals && p in ids.value
    ensures ids.Some? ==> forall p :: p in r.0.vals ==> r.0.vals[p] == titles.vals[p]
    ensures ids.Some? ==> forall p :: p in r.1 <==> p in names && p in titles.vals && p in ids.value
    ensures forall p :: p in r.1 ==> r.1[p] == names[p]
  {
    match ids
    case None => (titles, names)
    case Some(l) =>
      var kept := Filter(titles, (p: string) => p in l);
      (kept, map p | p in names && p in titles.vals && p in l :: names[p])
  }

  /** The platforms `keys` of one round merged into the day's data, in order. */
  function MergeRound(results: Results, infos: Infos, round: Results, keys: seq<string>, time: string): (Results, Infos)
    requires ValidResults(round)
    requires forall i :: 0 <= i < |keys| ==> keys[i] in round.vals
    decreases |keys|
  {
    if |keys| == 0 then (results, infos)
    else
      var p := keys[|keys| - 1];
      var acc := MergeRound(results, infos, round, keys[..|keys| - 1], time);
      MergeSource(acc.0, acc.1, p, round.vals[p], time)
  }

  /** One stored round: its stem (the file name without extension, the round's time) and its text. */
  datatype Round = Round(stem: string, content: string)

  /** One round's titles and names, parsed and cut down to the listed platforms. */
  function RoundData(round: Round, ids: Option<seq<string>>): (r: (Results, map<string, string>))
    ensures ValidResults(r.0)
    ensures ids.Some? ==> forall p :: (p in r.0.vals || p in r.1) ==> p in ids.value
    ensures var parsed := ParseSnapshot(round.content);
      && (ids.None? ==> r == parsed)
      && (ids.Some? ==> forall p :: p in r.0.vals <==> p in parsed.0.vals && p in ids.value)
      && (forall p :: p in r.0.vals ==> p in parsed.0.vals && r.0.vals[p] == parsed.0.vals[p])
      && (ids.Some? ==> forall p :: p in r.1 <==> p in parsed.1 && p in parsed.0.vals && p in ids.value)
      && (forall p :: p in r.1 ==> p in parsed.1 && r.1[p] == parsed.1[p])
  {
    var parsed := ParseSnapshot(round.content);
    FilterRound(parsed.0, parsed.1, ids)
  }

  /** The merged results, names and records of the rounds, in order. */
  function ReadAll(rounds: seq<Round>, ids: Option<seq<string>>): (Results, map<string, string>, Infos)
    decreases |rounds|
  {
    if |rounds| == 0 then (Empty(), map[], Empty())
    else
      var acc := ReadAll(rounds[..|rounds| - 1], ids);
      var round := rounds[|rounds| - 1];
      var kept := RoundData(round, ids);
      var merged := MergeRound(acc.0, acc.2, kept.0, kept.0.keys, round.stem);
      (merged.0, acc.1 + kept.1, merged.1)
  }

  /** The platforms of one round, handed to `process_source_data` one by one. */
  method MergeRoundInto(ds: DayDataset, round: Results, time: string)
    requires ds.Valid() && ValidResults(round)
    modifies ds
    ensures ds.Valid()
    ensures (ds.allResults, ds.titleInfo) == MergeRound(old(ds.allResults), old(ds.titleInfo), round, round.keys, time)
  {
    var k := 0;
    while k < |round.keys|
      invariant 0 <= k <= |round.keys|
      invariant ds.Valid()
      invariant (ds.allResults, ds.titleInfo) == MergeRound(old(ds.allResults), old(ds.titleInfo), round, round.keys[..k], time)
    {
      var p := round.keys[k];
      assert round.keys[..k + 1][..k] == round.keys[..k];
      ds.ProcessSourceData(p, round.vals[p], time);
      k := k + 1;
    }
    assert round.keys[..k] == round.keys;
  }

  /** The platform filter of one round. */
  method FilterPlatforms(titles: Results, names: map<string, string>, ids: Option<seq<string>>)
    returns (kept: Results, keptNames: map<string, string>)
    requires ValidResults(titles)
    ensures (kept, keptNames) == FilterRound(titles, names, ids)
    ensures ValidResults(kept)
  {
    kept, keptNames := titles, names;
    if ids.Some? {
      kept := Filter(titles, (p: string) => p in ids.value);
      keptNames := map p | p in names && p in titles.vals && p in ids.value :: names[p];
    }
  }

  /** One snapshot of the day: parsed, cut down to the listed platforms, and merged; its names go over the earlier ones. */
  method ReadRound(ds: DayDataset, round: Round, ids: Option<seq<string>>, idToName: map<string, string>)
    returns (names: map<string, string>)
    requires ds.Valid()
    modifies ds
    ensures ds.Valid()
    ensures var kept := RoundData(round, ids);
      && (ds.allResults, ds.titleInfo) == MergeRound(old(ds.allResults), old(ds.titleInfo), kept.0, kept.0.keys, round.stem)
      && names == idToName + kept.1
  {
    var titlesById, fileNames := ParseFileTitles(round.content);
    titlesById, fileNames := FilterPlatforms(titlesById, fileNames, ids);
    names := idToName + fileNames;
    MergeRoundInto(ds, titlesById, round.stem);
  }

  /** One snapshot more: the day so far with that snapshot merged in. */
  lemma ReadAllStep(rounds: seq<Round>, i: nat, ids: Option<seq<string>>)
    requires i < |rounds|
    ensures var acc := ReadAll(rounds[..i], ids);
      var kept := RoundData(rounds[i], ids);
      var merged := MergeRound(acc.0, acc.2, kept.0, kept.0.keys, rounds[i].stem);
      ReadAll(rounds[..i + 1], ids) == (merged.0, acc.1 + kept.1, merged.1)
  {
    assert rounds[..i + 1][..i] == rounds[..i] && rounds[..i + 1][i] == rounds[i];
  }

  /**
   * `read_all_today_titles` over the day's snapshots, given in file-name
   * order: each is parsed, cut down to the listed platforms when a list is
   * given, and merged; later names replace earlier ones.
   */
  method ReadAllTodayTitles(rounds: seq<Round>, ids: Option<seq<string>>)
    returns (allResults: Results, idToName: map<string, string>, titleInfo: Infos)
    ensures (allResults, idToName, titleInfo) == ReadAll(rounds, ids)
    ensures Consistent(allResults, titleInfo) && ValidResults(allResults)
  {
    var ds := new DayDataset();
    idToName := map[];
    var i := 0;
    while i < |rounds|
      invariant 0 <= i <= |rounds|
      invariant ds.Valid()
      invariant ds.allResults == ReadAll(rounds[..i], ids).0
      invariant idToName == ReadAll(rounds[..i], ids).1
      invariant ds.titleInfo == ReadAll(rounds[..i], ids).2
    {
      ReadAllStep(rounds, i, ids);
      idToName := ReadRound(ds, rounds[i], ids, idToName);
      i := i + 1;
    }
    assert rounds[..i] == rounds;
    allResults, titleInfo := ds.allResults, ds.titleInfo;
  }

  /** A platform is in the day's data exactly when some round, cut down to the list, holds it. */
  lemma ReadAllPlatforms(rounds: seq<Round>, ids: Option<seq<string>>)
    ensures forall p :: p in ReadAll(rounds, ids).0.vals <==>
      exists i :: 0 <= i < |rounds| && p in RoundData(rounds[i], ids).0.vals
  {
    forall p
      ensures p in ReadAll(rounds, ids).0.vals <==>
        exists i :: 0 <= i < |rounds| && p in RoundData(rounds[i], ids).0.vals
    {
      ReadAllPlatform(rounds, ids, p);
    }
  }

  /** The same, for one platform. */
  lemma ReadAllPlatform(rounds: seq<Round>, ids: Option<seq<string>>, p: string)
    ensures p in ReadAll(rounds, ids).0.vals <==>
      exists i :: 0 <= i < |rounds| && p in RoundData(rounds[i], ids).0.vals
  {
    if p in ReadAll(rounds, ids).0.vals {
      var i := ReadAllPlatformFrom(rounds, ids, p);
    }
    if exists i :: 0 <= i < |rounds| && p in RoundData(rounds[i], ids).0.vals {
      var i :| 0 <= i < |rounds| && p in RoundData(rounds[i], ids).0.vals;
      ReadAllPlatformTo(rounds, ids, p, i);
    }
  }

  /** A platform in the day's data comes from some round. */
  lemma {:induction false} ReadAllPlatformFrom(rounds: seq<Round>, ids: Option<seq<string>>, p: string) returns (i: nat)
    requires p in ReadAll(rounds, ids).0.vals
    ensures i < |rounds| && p in RoundData(rounds[i], ids).0.vals
    decreases |rounds|
  {
    var n := |rounds| - 1;
    var front := rounds[..n];
    ReadAllPlatformStep(rounds, ids, p);
    if p in RoundData(rounds[n], ids).0.vals {
      i := n;
    } else {
      i := ReadAllPlatformFrom(front, ids, p);
      assert rounds[i] == front[i];
    }
  }

  /** A platform some round keeps is in the day's data. */
  lemma {:induction false} ReadAllPlatformTo(rounds: seq<Round>, ids: Option<seq<string>>, p: string, i: nat)
    requires i < |rounds| && p in RoundData(rounds[i], ids).0.vals
    ensures p in ReadAll(rounds, ids).0.vals
    decreases |rounds|
  {
    var n := |rounds| - 1;
    var front := rounds[..n];
    ReadAllPlatformStep(rounds, ids, p);
    if i < n {
      assert front[i] == rounds[i];
      ReadAllPlatformTo(front, ids, p, i);
    } else {
      assert i == n;
    }
  }

  /** The same, for one platform. */
  lemma ReadAllPlatformStep(rounds: seq<Round>, ids: Option<seq<string>>, p: string)
    requires |rounds| > 0
    ensures var n := |rounds| - 1;
      p in ReadAll(rounds, ids).0.vals <==>
        p in ReadAll(rounds[..n], ids).0.vals || p in RoundData(rounds[n], ids).0.vals
  {
    ReadAllPlatformsStep(rounds, ids);
  }

  /** One round more adds exactly the platforms that round keeps. */
  lemma ReadAllPlatformsStep(rounds: seq<Round>, ids: Option<seq<string>>)
    requires |rounds| > 0
    ensures var n := |rounds| - 1;
      forall p :: p in ReadAll(rounds, ids).0.vals <==>
        p in ReadAll(rounds[..n], ids).0.vals || p in RoundData(rounds[n], ids).0.vals
  {
    var n := |rounds| - 1;
    ReadAllListed(rounds[..n], ids);
    var acc := ReadAll(rounds[..n], ids);
    var kept := RoundData(rounds[n], ids);
    MergeRoundPlatforms(acc.0, acc.2, kept.0, kept.0.keys, rounds[n].stem);
  }

  /** Merging the platforms `keys` of a round keeps the day's data consistent and adds exactly those platforms. */
  lemma {:induction false} MergeRoundPlatforms(results: Results, infos: Infos, round: Results, keys: seq<string>, time: string)
    requires Consistent(results, infos) && ValidResults(results) && ValidResults(round)
    requires forall i :: 0 <= i < |keys| ==> keys[i] in round.vals
    ensures var m := MergeRound(results, infos, round, keys, time);
      && Consistent(m.0, m.1) && ValidResults(m.0)
      && forall p :: p in m.0.vals <==> p in results.vals || p in keys
    decreases |keys|
  {
    if |keys| > 0 {
      var p := keys[|keys| - 1];
      var front := keys[..|keys| - 1];
      MergeRoundPlatforms(results, infos, round, front, time);
      var acc := MergeRound(results, infos, round, front, time);
      assert MergeRound(results, infos, round, keys, time) == MergeSource(acc.0, acc.1, p, round.vals[p], time);
      MergeSourcePlatforms(acc.0, acc.1, p, round.vals[p], time);
    }
  }

  /** Merging one platform keeps the day's data consistent and adds exactly that platform. */
  lemma MergeSourcePlatforms(results: Results, infos: Infos, p: string, batch: Titles, time: string)
    requires Consistent(results, infos) && ValidResults(results) && batch.Valid()
    ensures var m := MergeSource(results, infos, p, batch, time);
      && Consistent(m.0, m.1) && ValidResults(m.0)
      && forall q :: q in m.0.vals <==> q in results.vals || q == p
  {
    MergeSourceFrame(results, infos, p, batch, time);
  }

  /** The names one round contributes. */
  function RoundNames(round: Round, ids: Option<seq<string>>): map<string, string> {
    RoundData(round, ids).1
  }

  /**
   * The day's data stays consistent, and with a platform list only the listed
   * platforms appear, in the data and in the names.
   */
  lemma {:induction false} ReadAllListed(rounds: seq<Round>, ids: Option<seq<string>>)
    ensures var r := ReadAll(rounds, ids);
      && Consistent(r.0, r.2) && ValidResults(r.0)
      && (ids.Some? ==> forall p :: p in r.0.vals ==> p in ids.value)
      && (ids.Some? ==> forall p :: p in r.1 ==> p in ids.value)
    decreases |rounds|
  {
    if |rounds| > 0 {
      var front := rounds[..|rounds| - 1];
      ReadAllListed(front, ids);
      var acc := ReadAll(front, ids);
      var round := rounds[|rounds| - 1];
      var kept := RoundData(round, ids);
      MergeRoundPlatforms(acc.0, acc.2, kept.0, kept.0.keys, round.stem);
    }
  }

  /** Name maps merged in order, a later map's entry replacing an earlier one. */
  function Overlay(names: seq<map<string, string>>): map<string, string>
    decreases |names|
  {
    if |names| == 0 then map[] else Overlay(names[..|names| - 1]) + names[|names| - 1]
  }

  /** The names each round contributes, in order. */
  function RoundsNames(rounds: seq<Round>, ids: Option<seq<string>>): (r: seq<map<string, string>>)
    ensures |r| == |rounds|
    ensures forall i :: 0 <= i < |rounds| ==> r[i] == RoundNames(rounds[i], ids)
  {
    seq(|rounds|, i requires 0 <= i < |rounds| => RoundNames(rounds[i], ids))
  }

  lemma {:induction false} ReadAllNames(rounds: seq<Round>, ids: Option<seq<string>>)
    ensures ReadAll(rounds, ids).1 == Overlay(RoundsNames(rounds, ids))
    decreases |rounds|
  {
    if |rounds| > 0 {
      var n := |rounds| - 1;
      ReadAllNames(rounds[..n], ids);
      ReadAllNamesStep(rounds, ids);
      var names := RoundsNames(rounds, ids);
      assert names[..n] == RoundsNames(rounds[..n], ids);
      assert Overlay(names) == Overlay(names[..n]) + names[n];
    }
  }

  /** One round more adds its names over the earlier ones. */
  lemma ReadAllNamesStep(rounds: seq<Round>, ids: Option<seq<string>>)
    requires |rounds| > 0
    ensures var n := |rounds| - 1;
      ReadAll(rounds, ids).1 == ReadAll(rounds[..n], ids).1 + RoundNames(rounds[n], ids)
  {
  }

  /** A key's value comes from the last map that holds the key. */
  lemma {:induction false} OverlayLastWins(names: seq<map<string, string>>, p: string)
    ensures p in Overlay(names) <==> exists j :: 0 <= j < |names| && p in names[j]
    ensures p in Overlay(names) ==>
      exists j :: 0 <= j < |names| && p in names[j] && Overlay(names)[p] == names[j][p]
        && forall k :: j < k < |names| ==> p !in names[k]
    decreases |names|
  {
    if |names| > 0 {
      var n := |names| - 1;
      var front := names[..n];
      OverlayLastWins(front, p);
      if p in names[n] {
      } else if p in Overlay(front) {
        var j :| 0 <= j < |front| && p in front[j] && Overlay(front)[p] == front[j][p]
          && forall k :: j < k < |front| ==> p !in front[k];
        assert names[j] == front[j];
        forall k | j < k < |names|
          ensures p !in names[k]
        {
          if k < n {
            assert names[k] == front[k];
          }
        }
      } else {
        forall j | 0 <= j < |names|
          ensures p !in names[j]
        {
          if j < n {
            assert names[j] == front[j];
          }
        }
      }
    }
  }

  /** `read_all_today_titles` names each platform as the last round that names it does. */
  lemma ReadAllNameFromLastRound(rounds: seq<Round>, ids: Option<seq<string>>, p: string)
    ensures p in ReadAll(rounds, ids).1 <==> exists j :: 0 <= j < |rounds| && p in RoundNames(rounds[j], ids)
    ensures p in ReadAll(rounds, ids).1 ==>
      exists j :: 0 <= j < |rounds| && p in RoundNames(rounds[j], ids)
        && ReadAll(rounds, ids).1[p] == RoundNames(rounds[j], ids)[p]
        && forall k :: j < k < |rounds| ==> p !in RoundNames(rounds[k], ids)
  {
    ReadAllNames(rounds, ids);
    OverlayLastWins(RoundsNames(rounds, ids), p);
  }
}

/**
 * `prepare_report_data`: the matched-news groups and the new titles turned
 * into the records the report is rendered from. The keyword groups, the filter
 * words and the configured rank threshold are passed in.
 */
module Reporter {
  import opened Wrappers
  import opened Dicts
  import opened Records
  import opened Matcher

  /** One group of matched news, as the analysis hands it over. */
  datatype StatGroup = StatGroup(word: string, count: int, percentage: Option<real>, titles: seq<MatchedNews>)

  /** One title as the report shows it. */
  datatype ReportTitle = ReportTitle(
    title: string,
    sourceName: string,
    timeDisplay: string,
    count: int,
    ranks: seq<int>,
    rankThreshold: int,
    url: string,
    mobileUrl: string,
    isNew: bool)

  /** One group of the report. */
  datatype ReportGroup = ReportGroup(word: string, count: int, percentage: real, titles: seq<ReportTitle>)

  /** The new titles of one platform. */
  datatype NewSource = NewSource(sourceId: string, sourceName: string, titles: seq<ReportTitle>)

  datatype Report = Report(stats: seq<ReportGroup>, newTitles: seq<NewSource>, failedIds: seq<string>, totalNewCount: nat)

  // ---------------------------------------------------------------------------
  // Matched-news groups
  // ---------------------------------------------------------------------------

  /** The time shown for a title: one time, "first～last", or nothing when a time is missing. */
  function TimeDisplay(firstTime: string, lastTime: string): (r: string)
    ensures r == "" <==> firstTime == "" || lastTime == ""
    ensures firstTime != "" && firstTime == lastTime ==> r == firstTime
    ensures firstTime != "" && lastTime != "" && firstTime != lastTime ==>
      && |r| == |firstTime| + 1 + |lastTime|
      && r[..|firstTime|] == firstTime && r[|firstTime|] == '～' && r[|firstTime| + 1..] == lastTime
  {
    if firstTime != "" && lastTime != "" then
      if firstTime == lastTime then firstTime else firstTime + "～" + lastTime
    else ""
  }

  /** A matched title as the report shows it: not new, the default threshold 10. */
  function StatTitle(n: MatchedNews): ReportTitle {
    ReportTitle(n.title, n.sourceName, TimeDisplay(n.firstTime, n.lastTime), n.count, n.ranks, 10, n.url, n.mobileUrl, false)
  }

  function StatTitles(ns: seq<MatchedNews>): (r: seq<ReportTitle>)
    ensures |r| == |ns|
    ensures forall i :: 0 <= i < |ns| ==> r[i] == StatTitle(ns[i])
  {
    seq(|ns|, i requires 0 <= i < |ns| => StatTitle(ns[i]))
  }

  function ReportGroupOf(g: StatGroup): ReportGroup {
    ReportGroup(g.word, g.count, g.percentage.GetOr(0.0), StatTitles(g.titles))
  }

  /** The groups with a positive count, in order, each with its titles converted. */
  function ProcessStats(stats: seq<StatGroup>): seq<ReportGroup>
    decreases |stats|
  {
    if |stats| == 0 then []
    else
      var g := stats[|stats| - 1];
      ProcessStats(stats[..|stats| - 1]) + (if g.count <= 0 then [] else [ReportGroupOf(g)])
  }

  /** The groups with a positive count, in order. */
  function Positive(stats: seq<StatGroup>): (r: seq<StatGroup>)
    ensures forall g :: g in r <==> g in stats && g.count > 0
    decreases |stats|
  {
    if |stats| == 0 then []
    else (if stats[0].count > 0 then [stats[0]] else []) + Positive(stats[1..])
  }

  lemma {:induction false} PositiveConcat(a: seq<StatGroup>, b: seq<StatGroup>)
    ensures Positive(a + b) == Positive(a) + Positive(b)
    decreases |a|
  {
    if |a| == 0 {
      assert a + b == b;
    } else {
      assert (a + b)[1..] == a[1..] + b;
      PositiveConcat(a[1..], b);
    }
  }

  /**
   * Groups with a count of zero or less are dropped; the others keep their
   * order, word and count, and every title of theirs is converted.
   */
  lemma {:induction false} ProcessStatsKeepsPositive(stats: seq<StatGroup>)
    ensures |ProcessStats(stats)| == |Positive(stats)|
    ensures forall i :: 0 <= i < |Positive(stats)| ==>
      && ProcessStats(stats)[i].word == Positive(stats)[i].word
      && ProcessStats(stats)[i].count == Positive(stats)[i].count > 0
      && ProcessStats(stats)[i].titles == StatTitles(Positive(stats)[i].titles)
    decreases |stats|
  {
    if |stats| > 0 {
      var n := |stats| - 1;
      ProcessStatsKeepsPositive(stats[..n]);
      PositiveSnoc(stats);
      var g := stats[n];
      var front := Positive(stats[..n]);
      var pos := Positive(stats);
      var groups := ProcessStats(stats);
      var before := ProcessStats(stats[..n]);
      assert groups == before + (if g.count <= 0 then [] else [ReportGroupOf(g)]);
      assert |groups| == |pos|;
      forall i | 0 <= i < |pos|
        ensures && groups[i].word == pos[i].word
                && groups[i].count == pos[i].count > 0
                && groups[i].titles == StatTitles(pos[i].titles)
      {
        if i < |front| {
          assert pos[i] == front[i] && groups[i] == before[i];
        } else {
          assert pos[i] == g && groups[i] == ReportGroupOf(g);
        }
      }
    }
  }

  /** One group more keeps it at the end when its count is positive. */
  lemma PositiveSnoc(stats: seq<StatGroup>)
    requires |stats| > 0
    ensures var n := |stats| - 1;
      Positive(stats) == Positive(stats[..n]) + (if stats[n].count > 0 then [stats[n]] else [])
  {
    var n := |stats| - 1;
    assert stats == stats[..n] + [stats[n]];
    PositiveConcat(stats[..n], [stats[n]]);
    assert Positive([stats[n]]) == if stats[n].count > 0 then [stats[n]] else [] by {
      assert [stats[n]][1..] == [];
    }
  }

  // ---------------------------------------------------------------------------
  // New titles
  // ---------------------------------------------------------------------------

  /** The keyword rule of `matches_word_groups` as a test on titles. */
  function Rule(groups: seq<WordGroup>, filterWords: seq<string>): string -> bool {
    (x: string) => MatchesWordGroups(x, groups, filterWords)
  }

  /** The platforms among `keys` with a matching new title, each with only those titles. */
  function FilterNew(newTitles: Results, keys: seq<string>, keep: string -> bool): (r: Results)
    requires ValidResults(newTitles)
    requires forall i :: 0 <= i < |keys| ==> keys[i] in newTitles.vals
    ensures ValidResults(r)
    decreases |keys|
  {
    if |keys| == 0 then Empty()
    else
      var p := keys[|keys| - 1];
      var acc := FilterNew(newTitles, keys[..|keys| - 1], keep);
      var kept := Filter(newTitles.vals[p], keep);
      if |kept.keys| > 0 then acc.Put(p, kept) else acc
  }

  /** A new title as the report shows it: seen once, new, with no time. */
  function NewTitle(x: string, name: string, d: TitleData, threshold: int): ReportTitle {
    ReportTitle(x, name, "", 1, d.ranks, threshold, d.url, d.mobileUrl, true)
  }

  /** The report records of the titles `keys` of one platform, in order. */
  function NewTitles(titles: Titles, keys: seq<string>, name: string, threshold: int): (r: seq<ReportTitle>)
    requires forall i :: 0 <= i < |keys| ==> keys[i] in titles.vals
    ensures |r| == |keys|
    ensures forall i :: 0 <= i < |keys| ==> r[i] == NewTitle(keys[i], name, titles.vals[keys[i]], threshold)
  {
    seq(|keys|, i requires 0 <= i < |keys| => NewTitle(keys[i], name, titles.vals[keys[i]], threshold))
  }

  /** The new-title sections of the platforms `keys`, in order; a platform with no titles gives none. */
  function NewSources(filtered: Results, keys: seq<string>, idToName: map<string, string>, threshold: int): seq<NewSource>
    requires ValidResults(filtered)
    requires forall i :: 0 <= i < |keys| ==> keys[i] in filtered.vals
    decreases |keys|
  {
    if |keys| == 0 then []
    else
      var p := keys[|keys| - 1];
      var t := filtered.vals[p];
      var name := SourceName(idToName, p);
      NewSources(filtered, keys[..|keys| - 1], idToName, threshold)
      + (if |t.keys| > 0 then [NewSource(p, name, NewTitles(t, t.keys, name, threshold))] else [])
  }

  /** The new-title section: empty in incremental mode or when no names are known. */
  function NewSection(newTitles: Results, idToName: map<string, string>, mode: string,
                      groups: seq<WordGroup>, filterWords: seq<string>, threshold: int): seq<NewSource>
    requires ValidResults(newTitles)
  {
    if mode == "incremental" || |idToName| == 0 then []
    else
      var filtered := FilterNew(newTitles, newTitles.keys, Rule(groups, filterWords));
      NewSources(filtered, filtered.keys, idToName, threshold)
  }

  /** The number of titles of the sections. */
  function TitleCount(sources: seq<NewSource>): nat
    decreases |sources|
  {
    if |sources| == 0 then 0 else TitleCount(sources[..|sources| - 1]) + |sources[|sources| - 1].titles|
  }

  /** The whole report. */
  function ReportOf(stats: seq<StatGroup>, failedIds: Option<seq<string>>, newTitles: Results,
                    idToName: map<string, string>, mode: string,
                    groups: seq<WordGroup>, filterWords: seq<string>, threshold: int): Report
    requires ValidResults(newTitles)
  {
    var sources := NewSection(newTitles, idToName, mode, groups, filterWords, threshold);
    Report(ProcessStats(stats), sources, failedIds.GetOr([]), TitleCount(sources))
  }

  // ---------------------------------------------------------------------------
  // Properties of the new-title section
  // ---------------------------------------------------------------------------

  /** In incremental mode the new-title section is empty and counts nothing. */
  lemma IncrementalHidesNew(stats: seq<StatGroup>, failedIds: Option<seq<string>>, newTitles: Results,
                            idToName: map<string, string>, groups: seq<WordGroup>, filterWords: seq<string>, threshold: int)
    requires ValidResults(newTitles)
    ensures ReportOf(stats, failedIds, newTitles, idToName, "incremental", groups, filterWords, threshold).newTitles == []
    ensures ReportOf(stats, failedIds, newTitles, idToName, "incremental", groups, filterWords, threshold).totalNewCount == 0
  {
  }

  /** A platform is kept iff it has a matching new title, and then with exactly its matching titles. */
  lemma FilterNewMembers(newTitles: Results, keys: seq<string>, keep: string -> bool)
    requires ValidResults(newTitles)
    requires forall i :: 0 <= i < |keys| ==> keys[i] in newTitles.vals
    ensures forall p :: p in FilterNew(newTitles, keys, keep).vals <==>
      p in keys && |Filter(newTitles.vals[p], keep).keys| > 0
    ensures forall p :: p in FilterNew(newTitles, keys, keep).vals ==>
      FilterNew(newTitles, keys, keep).vals[p] == Filter(newTitles.vals[p], keep)
  {
    forall p
      ensures p in FilterNew(newTitles, keys, keep).vals <==> p in keys && |Filter(newTitles.vals[p], keep).keys| > 0
      ensures p in FilterNew(newTitles, keys, keep).vals ==> FilterNew(newTitles, keys, keep).vals[p] == Filter(newTitles.vals[p], keep)
    {
      FilterNewAt(newTitles, keys, keep, p);
    }
  }

  /** A map that is `acc`, or `acc` with `q` set to `v` when `add`, seen at one key. */
  lemma MapStep<K, V>(acc: map<K, V>, r: map<K, V>, q: K, v: V, add: bool, p: K)
    requires r == if add then acc[q := v] else acc
    ensures p in r <==> p in acc || (add && p == q)
    ensures p in r ==> r[p] == if add && p == q then v else acc[p]
  {
  }

  /** The last platform is added, with its matching titles, when it has any. */
  lemma FilterNewUnfold(newTitles: Results, keys: seq<string>, keep: string -> bool)
    requires ValidResults(newTitles)
    requires forall i :: 0 <= i < |keys| ==> keys[i] in newTitles.vals
    requires |keys| > 0
    ensures var q := keys[|keys| - 1];
      var acc := FilterNew(newTitles, keys[..|keys| - 1], keep);
      var kept := Filter(newTitles.vals[q], keep);
      FilterNew(newTitles, keys, keep).vals == if |kept.keys| > 0 then acc.vals[q := kept] else acc.vals
  {
  }

  /** One platform: kept iff listed with a matching new title, and then with exactly its matching titles. */
  lemma FilterNewAt(newTitles: Results, keys: seq<string>, keep: string -> bool, p: string)
    requires ValidResults(newTitles)
    requires forall i :: 0 <= i < |keys| ==> keys[i] in newTitles.vals
    ensures p in FilterNew(newTitles, keys, keep).vals <==> p in keys && |Filter(newTitles.vals[p], keep).keys| > 0
    ensures p in FilterNew(newTitles, keys, keep).vals ==> FilterNew(newTitles, keys, keep).vals[p] == Filter(newTitles.vals[p], keep)
  {
    FilterNewHas(newTitles, keys, keep, p);
    if p in FilterNew(newTitles, keys, keep).vals {
      FilterNewValue(newTitles, keys, keep, p);
    }
  }

  /** A platform is kept iff it is listed and has a matching new title. */
  lemma {:induction false} FilterNewHas(newTitles: Results, keys: seq<string>, keep: string -> bool, p: string)
    requires ValidResults(newTitles)
    requires forall i :: 0 <= i < |keys| ==> keys[i] in newTitles.vals
    ensures p in FilterNew(newTitles, keys, keep).vals <==> p in keys && |Filter(newTitles.vals[p], keep).keys| > 0
    decreases |keys|
  {
    if |keys| > 0 {
      var n := |keys| - 1;
      var q := keys[n];
      var front := keys[..n];
      FilterNewHas(newTitles, front, keep, p);
      var acc := FilterNew(newTitles, front, keep);
      var kept := Filter(newTitles.vals[q], keep);
      FilterNewUnfold(newTitles, keys, keep);
      MapStep(acc.vals, FilterNew(newTitles, keys, keep).vals, q, kept, |kept.keys| > 0, p);
      InFrontOrLast(keys, p);
    }
  }

  /** An element of a non-empty sequence is in its front or is its last element. */
  lemma InFrontOrLast<T>(s: seq<T>, x: T)
    requires |s| > 0
    ensures x in s <==> x in s[..|s| - 1] || x == s[|s| - 1]
  {
    assert s == s[..|s| - 1] + [s[|s| - 1]];
  }

  /** A kept platform keeps exactly its matching titles. */
  lemma {:induction false} FilterNewValue(newTitles: Results, keys: seq<string>, keep: string -> bool, p: string)
    requires ValidResults(newTitles)
    requires forall i :: 0 <= i < |keys| ==> keys[i] in newTitles.vals
    requires p in newTitles.vals && p in FilterNew(newTitles, keys, keep).vals
    ensures FilterNew(newTitles, keys, keep).vals[p] == Filter(newTitles.vals[p], keep)
    decreases |keys|
  {
    var n := |keys| - 1;
    var q := keys[n];
    var front := keys[..n];
    var acc := FilterNew(newTitles, front, keep);
    var kept := Filter(newTitles.vals[q], keep);
    FilterNewUnfold(newTitles, keys, keep);
    MapStep(acc.vals, FilterNew(newTitles, keys, keep).vals, q, kept, |kept.keys| > 0, p);
    if !(|kept.keys| > 0 && p == q) {
      FilterNewValue(newTitles, front, keep, p);
    }
  }

  /** Every emitted section has titles, and every emitted title is new, seen once and has no time. */
  lemma {:induction false} NewSourcesShape(filtered: Results, keys: seq<string>, idToName: map<string, string>, threshold: int)
    requires ValidResults(filtered)
    requires forall i :: 0 <= i < |keys| ==> keys[i] in filtered.vals
    ensures forall s :: s in NewSources(filtered, keys, idToName, threshold) ==>
      && |s.titles| > 0 && s.sourceId in keys && s.sourceName == SourceName(idToName, s.sourceId)
      && forall t :: t in s.titles ==> t.count == 1 && t.isNew && t.timeDisplay == "" && t.rankThreshold == threshold
    decreases |keys|
  {
    if |keys| > 0 {
      NewSourcesShape(filtered, keys[..|keys| - 1], idToName, threshold);
    }
  }

  /** The section of platform `p` lists exactly the titles of `p` in `filtered`, in their order. */
  lemma {:induction false} NewSourcesTitles(filtered: Results, keys: seq<string>, idToName: map<string, string>, threshold: int)
    requires ValidResults(filtered)
    requires forall i :: 0 <= i < |keys| ==> keys[i] in filtered.vals
    ensures forall s :: s in NewSources(filtered, keys, idToName, threshold) ==>
      && s.sourceId in filtered.vals
      && |s.titles| == |filtered.vals[s.sourceId].keys|
      && forall i :: 0 <= i < |s.titles| ==> s.titles[i].title == filtered.vals[s.sourceId].keys[i]
    decreases |keys|
  {
    if |keys| > 0 {
      NewSourcesTitles(filtered, keys[..|keys| - 1], idToName, threshold);
    }
  }

  /** The sections list title `x` under platform `p`. */
  predicate Lists(sources: seq<NewSource>, p: string, x: string) {
    exists i, j :: 0 <= i < |sources| && sources[i].sourceId == p && 0 <= j < |sources[i].titles| && sources[i].titles[j].title == x
  }

  /** A new title that passes `keep` is listed under its platform. */
  lemma KeptIsListed(newTitles: Results, keep: string -> bool, idToName: map<string, string>, threshold: int, p: string, x: string)
    requires ValidResults(newTitles)
    requires p in newTitles.vals && x in newTitles.vals[p].vals && keep(x)
    ensures var filtered := FilterNew(newTitles, newTitles.keys, keep);
      Lists(NewSources(filtered, filtered.keys, idToName, threshold), p, x)
  {
    var filtered := FilterNew(newTitles, newTitles.keys, keep);
    FilterNewMembers(newTitles, newTitles.keys, keep);
    var kept := Filter(newTitles.vals[p], keep);
    assert x in kept.vals;
    assert p in filtered.vals && filtered.vals[p] == kept;
    SectionLists(filtered, idToName, threshold, p, x);
  }

  /** Every title of a platform with new titles is listed in the platform's section. */
  lemma SectionLists(filtered: Results, idToName: map<string, string>, threshold: int, p: string, x: string)
    requires ValidResults(filtered)
    requires p in filtered.vals && x in filtered.vals[p].vals
    ensures Lists(NewSources(filtered, filtered.keys, idToName, threshold), p, x)
  {
    var titles := filtered.vals[p];
    var j := titles.PositionOf(x);
    var sources := NewSources(filtered, filtered.keys, idToName, threshold);
    NewSourceOf(filtered, filtered.keys, idToName, threshold, p);
    var i :| 0 <= i < |sources| && sources[i].sourceId == p;
    var s := sources[i];
    assert s in sources;
    NewSourcesTitles(filtered, filtered.keys, idToName, threshold);
    assert s.titles[j].title == x;
  }

  /** A listed new title passes `keep`. */
  lemma ListedIsKept(newTitles: Results, keep: string -> bool, idToName: map<string, string>, threshold: int, p: string, x: string)
    requires ValidResults(newTitles)
    requires p in newTitles.vals && x in newTitles.vals[p].vals
    requires var filtered := FilterNew(newTitles, newTitles.keys, keep);
      Lists(NewSources(filtered, filtered.keys, idToName, threshold), p, x)
    ensures keep(x)
  {
    var filtered := FilterNew(newTitles, newTitles.keys, keep);
    var sources := NewSources(filtered, filtered.keys, idToName, threshold);
    var i, j :| 0 <= i < |sources| && sources[i].sourceId == p && 0 <= j < |sources[i].titles| && sources[i].titles[j].title == x;
    var s := sources[i];
    assert s in sources;
    NewSourcesTitles(filtered, filtered.keys, idToName, threshold);
    var y := filtered.vals[p].keys[j];
    assert y == x;
    assert y in filtered.vals[p].vals;
    FilterNewMembers(newTitles, newTitles.keys, keep);
  }

  /**
   * Outside incremental mode and with names known, a new title of platform
   * `p` appears in the report iff it passes the keyword rule.
   */
  lemma NewTitleShownIffMatches(newTitles: Results, idToName: map<string, string>, mode: string,
                                groups: seq<WordGroup>, filterWords: seq<string>, threshold: int, p: string, x: string)
    requires ValidResults(newTitles) && mode != "incremental" && |idToName| > 0
    requires p in newTitles.vals && x in newTitles.vals[p].vals
    ensures Lists(NewSection(newTitles, idToName, mode, groups, filterWords, threshold), p, x)
        <==> MatchesWordGroups(x, groups, filterWords)
  {
    var keep := Rule(groups, filterWords);
    if MatchesWordGroups(x, groups, filterWords) {
      KeptIsListed(newTitles, keep, idToName, threshold, p, x);
    } else if Lists(NewSection(newTitles, idToName, mode, groups, filterWords, threshold), p, x) {
      ListedIsKept(newTitles, keep, idToName, threshold, p, x);
    }
  }

  /** A listed platform with titles has its section. */
  lemma {:induction false} NewSourceOf(filtered: Results, keys: seq<string>, idToName: map<string, string>, threshold: int, p: string)
    requires ValidResults(filtered)
    requires forall i :: 0 <= i < |keys| ==> keys[i] in filtered.vals
    requires p in keys && |filtered.vals[p].keys| > 0
    ensures exists i :: 0 <= i < |NewSources(filtered, keys, idToName, threshold)| && NewSources(filtered, keys, idToName, threshold)[i].sourceId == p
    decreases |keys|
  {
    var n := |keys| - 1;
    var all := NewSources(filtered, keys, idToName, threshold);
    var front := NewSources(filtered, keys[..n], idToName, threshold);
    assert all[..|front|] == front;
    if keys[n] == p {
      assert all[|front|].sourceId == p;
    } else {
      assert p in keys[..n];
      NewSourceOf(filtered, keys[..n], idToName, threshold, p);
      var i :| 0 <= i < |front| && front[i].sourceId == p;
      assert all[i] == front[i];
    }
  }

  // ---------------------------------------------------------------------------
  // The loops of `prepare_report_data`
  // ---------------------------------------------------------------------------

  /** `kept` holds the titles among the first `k` that pass `keep`, in order, with their data. */
  ghost predicate FilteredSoFar(titles: Titles, keep: string -> bool, kept: Titles, k: nat)
    requires k <= |titles.keys|
  {
    && kept.keys == FilterSeq(titles.keys[..k], keep)
    && (forall x :: x in kept.vals <==> x in titles.keys[..k] && keep(x))
    && (forall x :: x in kept.vals ==> x in titles.vals && kept.vals[x] == titles.vals[x])
  }

  lemma FilteredStep(titles: Titles, keep: string -> bool, kept: Titles, k: nat)
    requires k < |titles.keys| && FilteredSoFar(titles, keep, kept, k)
    requires titles.keys[k] in titles.vals && titles.keys[k] !in titles.keys[..k]
    ensures var x := titles.keys[k];
      FilteredSoFar(titles, keep, if keep(x) then kept.Put(x, titles.vals[x]) else kept, k + 1)
  {
    FilteredKeysStep(titles, keep, kept, k);
    FilteredMembersStep(titles, keep, kept, k);
    FilteredValuesStep(titles, keep, kept, k);
  }

  lemma FilteredValuesStep(titles: Titles, keep: string -> bool, kept: Titles, k: nat)
    requires k < |titles.keys| && FilteredSoFar(titles, keep, kept, k)
    requires titles.keys[k] in titles.vals
    ensures var x := titles.keys[k];
      var kept' := if keep(x) then kept.Put(x, titles.vals[x]) else kept;
      forall y :: y in kept'.vals ==> y in titles.vals && kept'.vals[y] == titles.vals[y]
  {
  }

  lemma FilteredKeysStep(titles: Titles, keep: string -> bool, kept: Titles, k: nat)
    requires k < |titles.keys| && FilteredSoFar(titles, keep, kept, k)
    requires titles.keys[k] in titles.vals && titles.keys[k] !in titles.keys[..k]
    ensures var x := titles.keys[k];
      var kept' := if keep(x) then kept.Put(x, titles.vals[x]) else kept;
      kept'.keys == FilterSeq(titles.keys[..k + 1], keep)
  {
    var x := titles.keys[k];
    var done, done' := titles.keys[..k], titles.keys[..k + 1];
    assert done' == done + [x];
    FilterSeqSnoc(done, x, keep);
  }

  lemma FilteredMembersStep(titles: Titles, keep: string -> bool, kept: Titles, k: nat)
    requires k < |titles.keys| && FilteredSoFar(titles, keep, kept, k)
    requires titles.keys[k] in titles.vals
    ensures var x := titles.keys[k];
      var kept' := if keep(x) then kept.Put(x, titles.vals[x]) else kept;
      forall y :: y in kept'.vals <==> y in titles.keys[..k + 1] && keep(y)
  {
    var x := titles.keys[k];
    assert titles.keys[..k + 1] == titles.keys[..k] + [x];
  }

  lemma FilteredDone(titles: Titles, keep: string -> bool, kept: Titles)
    requires titles.Valid() && FilteredSoFar(titles, keep, kept, |titles.keys|)
    ensures kept == Filter(titles, keep)
  {
    assert titles.keys[..|titles.keys|] == titles.keys;
    var f := Filter(titles, keep);
    assert kept.vals == f.vals;
  }

  /** The titles of one platform that pass `keep`, collected in order. */
  method FilterTitles(titles: Titles, keep: string -> bool) returns (kept: Titles)
    requires titles.Valid()
    ensures kept == Filter(titles, keep)
  {
    kept := Empty();
    var k := 0;
    while k < |titles.keys|
      invariant 0 <= k <= |titles.keys|
      invariant FilteredSoFar(titles, keep, kept, k)
    {
      titles.KeyAt(k);
      FilteredStep(titles, keep, kept, k);
      var x := titles.keys[k];
      if keep(x) {
        kept := kept.Put(x, titles.vals[x]);
      }
      k := k + 1;
    }
    FilteredDone(titles, keep, kept);
  }

  /** One platform more: it is added with its matching titles, if it has any. */
  lemma FilterNewStep(newTitles: Results, keys: seq<string>, i: nat, keep: string -> bool)
    requires ValidResults(newTitles) && i < |keys|
    requires forall j :: 0 <= j < |keys| ==> keys[j] in newTitles.vals
    ensures var kept := Filter(newTitles.vals[keys[i]], keep);
      var acc := FilterNew(newTitles, keys[..i], keep);
      FilterNew(newTitles, keys[..i + 1], keep) == if |kept.keys| > 0 then acc.Put(keys[i], kept) else acc
  {
    assert keys[..i + 1][..i] == keys[..i];
  }

  /** The first pass: the platforms with matching new titles. */
  method FilterNewTitles(newTitles: Results, groups: seq<WordGroup>, filterWords: seq<string>) returns (filtered: Results)
    requires ValidResults(newTitles)
    ensures filtered == FilterNew(newTitles, newTitles.keys, Rule(groups, filterWords))
  {
    var keep := Rule(groups, filterWords);
    filtered := Empty();
    var i := 0;
    while i < |newTitles.keys|
      invariant 0 <= i <= |newTitles.keys|
      invariant filtered == FilterNew(newTitles, newTitles.keys[..i], keep)
    {
      var p := newTitles.keys[i];
      FilterNewStep(newTitles, newTitles.keys, i, keep);
      var kept := FilterTitles(newTitles.vals[p], keep);
      if |kept.keys| > 0 {
        filtered := filtered.Put(p, kept);
      }
      i := i + 1;
    }
    assert newTitles.keys[..i] == newTitles.keys;
  }

  /** The report records of one platform's new titles. */
  method BuildNewTitles(titles: Titles, name: string, threshold: int) returns (out: seq<ReportTitle>)
    requires titles.Valid()
    ensures out == NewTitles(titles, titles.keys, name, threshold)
  {
    out := [];
    var k := 0;
    while k < |titles.keys|
      invariant 0 <= k <= |titles.keys| && |out| == k
      invariant forall j :: 0 <= j < k ==> out[j] == NewTitle(titles.keys[j], name, titles.vals[titles.keys[j]], threshold)
    {
      var x := titles.keys[k];
      out := out + [NewTitle(x, name, titles.vals[x], threshold)];
      k := k + 1;
    }
  }

  /** One platform more: its section is added when it has titles. */
  lemma NewSourcesStep(filtered: Results, keys: seq<string>, i: nat, idToName: map<string, string>, threshold: int)
    requires ValidResults(filtered) && i < |keys|
    requires forall j :: 0 <= j < |keys| ==> keys[j] in filtered.vals
    ensures var t := filtered.vals[keys[i]];
      var name := SourceName(idToName, keys[i]);
      NewSources(filtered, keys[..i + 1], idToName, threshold)
        == NewSources(filtered, keys[..i], idToName, threshold)
           + (if |t.keys| > 0 then [NewSource(keys[i], name, NewTitles(t, t.keys, name, threshold))] else [])
  {
    assert keys[..i + 1][..i] == keys[..i];
  }

  lemma TitleCountSnoc(sources: seq<NewSource>, s: NewSource)
    ensures TitleCount(sources + [s]) == TitleCount(sources) + |s.titles|
  {
    assert (sources + [s])[..|sources|] == sources;
  }

  /** The second pass: one section per platform, and the number of titles. */
  method BuildNewSources(filtered: Results, idToName: map<string, string>, threshold: int)
    returns (sources: seq<NewSource>, total: nat)
    requires ValidResults(filtered)
    ensures sources == NewSources(filtered, filtered.keys, idToName, threshold)
    ensures total == TitleCount(sources)
  {
    sources, total := [], 0;
    var i := 0;
    while i < |filtered.keys|
      invariant 0 <= i <= |filtered.keys|
      invariant sources == NewSources(filtered, filtered.keys[..i], idToName, threshold)
      invariant total == TitleCount(sources)
    {
      var p := filtered.keys[i];
      NewSourcesStep(filtered, filtered.keys, i, idToName, threshold);
      var name := SourceName(idToName, p);
      var titles := BuildNewTitles(filtered.vals[p], name, threshold);
      if |titles| > 0 {
        var s := NewSource(p, name, titles);
        TitleCountSnoc(sources, s);
        sources := sources + [s];
        total := total + |titles|;
      }
      i := i + 1;
    }
    assert filtered.keys[..i] == filtered.keys;
  }

  /** One group's titles converted. */
  method BuildStatTitles(ns: seq<MatchedNews>) returns (out: seq<ReportTitle>)
    ensures out == StatTitles(ns)
  {
    out := [];
    var k := 0;
    while k < |ns|
      invariant 0 <= k <= |ns| && |out| == k
      invariant forall j :: 0 <= j < k ==> out[j] == StatTitle(ns[j])
    {
      var n := ns[k];
      var shown := if n.firstTime != "" && n.lastTime != "" then
                     (if n.firstTime == n.lastTime then n.firstTime else n.firstTime + "～" + n.lastTime)
                   else "";
      out := out + [ReportTitle(n.title, n.sourceName, shown, n.count, n.ranks, 10, n.url, n.mobileUrl, false)];
      k := k + 1;
    }
  }

  /** The groups with a positive count. */
  method BuildStats(stats: seq<StatGroup>) returns (out: seq<ReportGroup>)
    ensures out == ProcessStats(stats)
  {
    out := [];
    var i := 0;
    while i < |stats|
      invariant 0 <= i <= |stats|
      invariant out == ProcessStats(stats[..i])
    {
      var g := stats[i];
      assert stats[..i + 1][..i] == stats[..i];
      if g.count > 0 {
        var titles := BuildStatTitles(g.titles);
        out := out + [ReportGroup(g.word, g.count, g.percentage.GetOr(0.0), titles)];
      }
      i := i + 1;
    }
    assert stats[..i] == stats;
  }

  /** `prepare_report_data` */
  method PrepareReportData(stats: seq<StatGroup>, failedIds: Option<seq<string>>, newTitles: Results,
                           idToName: map<string, string>, mode: string,
                           groups: seq<WordGroup>, filterWords: seq<string>, threshold: int)
    returns (report: Report)
    requires ValidResults(newTitles)
    ensures report == ReportOf(stats, failedIds, newTitles, idToName, mode, groups, filterWords, threshold)
  {
    var sources: seq<NewSource> := [];
    var total: nat := 0;
    if mode != "incremental" && |idToName| > 0 {
      var filtered := FilterNewTitles(newTitles, groups, filterWords);
      sources, total := BuildNewSources(filtered, idToName, threshold);
    }
    var processed := BuildStats(stats);
    report := Report(processed, sources, if failedIds.Some? then failedIds.value else [], total);
  }
}

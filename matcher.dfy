/** Keyword matching, the news weight, rank display and the matched-news list. */
module Matcher {
  import opened Wrappers
  import opened Text
  import opened Dicts
  import opened Records
  import opened Sorting

  // ---------------------------------------------------------------------------
  // Weight
  // ---------------------------------------------------------------------------

  /** The three factors of the weight (`WEIGHT_CONFIG`). */
  datatype WeightConfig = WeightConfig(rankWeight: real, frequencyWeight: real, hotnessWeight: real)

  /** The factors used when no configuration is given. */
  const DefaultWeights := WeightConfig(0.6, 0.3, 0.1)

  function Min(a: int, b: int): int {
    if a <= b then a else b
  }

  /** One appearance's rank score: 10 for first place down to 1 for tenth place and below. */
  function RankScore(rank: int): int {
    11 - Min(rank, 10)
  }

  function RankScoreSum(ranks: seq<int>): int
    decreases |ranks|
  {
    if |ranks| == 0 then 0 else RankScoreSum(ranks[..|ranks| - 1]) + RankScore(ranks[|ranks| - 1])
  }

  /** How many appearances ranked at or above the threshold. */
  function HighRankCount(ranks: seq<int>, threshold: int): nat
    decreases |ranks|
  {
    if |ranks| == 0 then 0
    else HighRankCount(ranks[..|ranks| - 1], threshold) + (if ranks[|ranks| - 1] <= threshold then 1 else 0)
  }

  /** The mean rank score. */
  function RankComponent(ranks: seq<int>): real
    requires |ranks| > 0
  {
    RankScoreSum(ranks) as real / |ranks| as real
  }

  /** Ten points per round seen, capped at ten rounds. */
  function FrequencyComponent(count: int): (r: real)
    ensures count >= 0 ==> 0.0 <= r <= 100.0
    ensures count >= 10 ==> r == 100.0
  {
    (Min(count, 10) * 10) as real
  }

  /** The percentage of appearances ranked at or above the threshold. */
  function HotnessComponent(ranks: seq<int>, threshold: int): real
    requires |ranks| > 0
  {
    HighRankCount(ranks, threshold) as real / |ranks| as real * 100.0
  }

  /**
   * `calculate_news_weight`: the weighted sum of the three components, or 0.0
   * with no ranks. A missing count counts every rank; a missing configuration
   * takes the default factors.
   */
  function NewsWeight(ranks: seq<int>, count: Option<int>, threshold: int, config: Option<WeightConfig>): real {
    if |ranks| == 0 then 0.0
    else
      var c := config.GetOr(DefaultWeights);
      RankComponent(ranks) * c.rankWeight
      + FrequencyComponent(count.GetOr(|ranks|)) * c.frequencyWeight
      + HotnessComponent(ranks, threshold) * c.hotnessWeight
  }

  lemma DivMono(a: real, b: real, n: real)
    requires n > 0.0 && a <= b
    ensures a / n <= b / n
  {
    assert b / n - a / n == (b - a) / n;
  }

  lemma {:induction false} RankScoreSumBounds(ranks: seq<int>)
    requires forall i :: 0 <= i < |ranks| ==> ranks[i] >= 1
    ensures |ranks| <= RankScoreSum(ranks) <= 10 * |ranks|
    decreases |ranks|
  {
    if |ranks| > 0 {
      RankScoreSumBounds(ranks[..|ranks| - 1]);
    }
  }

  lemma {:induction false} HighRankCountBound(ranks: seq<int>, threshold: int)
    ensures HighRankCount(ranks, threshold) <= |ranks|
    decreases |ranks|
  {
    if |ranks| > 0 {
      HighRankCountBound(ranks[..|ranks| - 1], threshold);
    }
  }

  /** The rank component lies in [1, 10] when every rank is at least 1. */
  lemma RankComponentBounds(ranks: seq<int>)
    requires |ranks| > 0 && forall i :: 0 <= i < |ranks| ==> ranks[i] >= 1
    ensures 1.0 <= RankComponent(ranks) <= 10.0
  {
    var n := |ranks| as real;
    RankScoreSumBounds(ranks);
    var sum := RankScoreSum(ranks) as real;
    DivMono(n, sum, n);
    DivMono(sum, 10.0 * n, n);
    assert n / n == 1.0;
    assert 10.0 * n / n == 10.0;
  }

  /** The hotness component lies in [0, 100]. */
  lemma HotnessComponentBounds(ranks: seq<int>, threshold: int)
    requires |ranks| > 0
    ensures 0.0 <= HotnessComponent(ranks, threshold) <= 100.0
  {
    var n := |ranks| as real;
    HighRankCountBound(ranks, threshold);
    var high := HighRankCount(ranks, threshold) as real;
    DivMono(high, n, n);
    DivMono(0.0, high, n);
    assert n / n == 1.0;
  }

  /** A value in [lo, hi] scaled by a non-negative factor stays in [lo, hi] times the factor. */
  lemma ScaleBounds(a: real, lo: real, hi: real, w: real)
    requires lo <= a <= hi && w >= 0.0
    ensures lo * w <= a * w <= hi * w
  {
    assert (a - lo) * w >= 0.0;
    assert (hi - a) * w >= 0.0;
  }

  /** Three terms within their ranges sum to within the summed ranges. */
  lemma SumBounds(a: real, b: real, h: real, rw: real, fw: real, hw: real)
    requires rw <= a <= 10.0 * rw && 0.0 <= b <= 100.0 * fw && 0.0 <= h <= 100.0 * hw
    ensures rw <= a + b + h <= 10.0 * rw + 100.0 * fw + 100.0 * hw
  {
  }

  /** The weighted sum of components within their ranges, with non-negative factors. */
  lemma WeightedSumBounds(rank: real, freq: real, hot: real, c: WeightConfig)
    requires 1.0 <= rank <= 10.0 && 0.0 <= freq <= 100.0 && 0.0 <= hot <= 100.0
    requires c.rankWeight >= 0.0 && c.frequencyWeight >= 0.0 && c.hotnessWeight >= 0.0
    ensures c.rankWeight <= rank * c.rankWeight + freq * c.frequencyWeight + hot * c.hotnessWeight
    ensures rank * c.rankWeight + freq * c.frequencyWeight + hot * c.hotnessWeight
      <= 10.0 * c.rankWeight + 100.0 * c.frequencyWeight + 100.0 * c.hotnessWeight
  {
    var rw, fw, hw := c.rankWeight, c.frequencyWeight, c.hotnessWeight;
    assert rw <= rank * rw <= 10.0 * rw by { ScaleBounds(rank, 1.0, 10.0, rw); }
    assert 0.0 <= freq * fw <= 100.0 * fw by { ScaleBounds(freq, 0.0, 100.0, fw); }
    assert 0.0 <= hot * hw <= 100.0 * hw by { ScaleBounds(hot, 0.0, 100.0, hw); }
    SumBounds(rank * rw, freq * fw, hot * hw, rw, fw, hw);
  }

  /**
   * With ranks of at least 1, a non-negative count and non-negative factors,
   * the weight lies between the rank factor (every rank tenth or below, no
   * frequency, nothing hot) and 10, 100 and 100 times the three factors.
   */
  lemma NewsWeightBounds(ranks: seq<int>, count: Option<int>, threshold: int, config: Option<WeightConfig>)
    requires |ranks| > 0 && forall i :: 0 <= i < |ranks| ==> ranks[i] >= 1
    requires count.Some? ==> count.value >= 0
    requires var c := config.GetOr(DefaultWeights);
      c.rankWeight >= 0.0 && c.frequencyWeight >= 0.0 && c.hotnessWeight >= 0.0
    ensures var c := config.GetOr(DefaultWeights);
      && c.rankWeight <= NewsWeight(ranks, count, threshold, config)
      && NewsWeight(ranks, count, threshold, config) <= 10.0 * c.rankWeight + 100.0 * c.frequencyWeight + 100.0 * c.hotnessWeight
  {
    RankComponentBounds(ranks);
    HotnessComponentBounds(ranks, threshold);
    assert count.GetOr(|ranks|) >= 0;
    WeightedSumBounds(RankComponent(ranks), FrequencyComponent(count.GetOr(|ranks|)),
      HotnessComponent(ranks, threshold), config.GetOr(DefaultWeights));
  }

  /** With no ranks the weight is exactly zero. */
  lemma NoRanksNoWeight(count: Option<int>, threshold: int, config: Option<WeightConfig>)
    ensures NewsWeight([], count, threshold, config) == 0.0
  {
  }

  /** Ranks 1 and 3, seen twice, threshold 5, default factors: 9 * 0.6 + 20 * 0.3 + 100 * 0.1. */
  lemma WeightExample()
    ensures NewsWeight([1, 3], Some(2), 5, None) == 21.4
  {
    assert [1, 3][..1] == [1];
    assert RankScoreSum([1, 3]) == 18;
    assert HighRankCount([1, 3], 5) == 2;
  }

  // ---------------------------------------------------------------------------
  // Word groups
  // ---------------------------------------------------------------------------

  /** One keyword group: all `required` words and, if any, one of the `normal` words. */
  datatype WordGroup = WordGroup(required: seq<string>, normal: seq<string>, groupKey: string)

  /** Some word of `words`, lower-cased, occurs in `text`. */
  predicate AnyPresent(words: seq<string>, text: string) {
    exists i | 0 <= i < |words| :: Contains(text, Lower(words[i]))
  }

  /** Every word of `words`, lower-cased, occurs in `text`. */
  predicate AllPresent(words: seq<string>, text: string) {
    forall i | 0 <= i < |words| :: Contains(text, Lower(words[i]))
  }

  /** The per-group test of `matches_word_groups`: a word list that is empty is not checked. */
  predicate GroupMatches(g: WordGroup, text: string) {
    && (|g.required| == 0 || AllPresent(g.required, text))
    && (|g.normal| == 0 || AnyPresent(g.normal, text))
  }

  /** The loop over the groups: the first group that passes decides. */
  predicate SomeGroupMatches(groups: seq<WordGroup>, text: string)
    decreases |groups|
  {
    if |groups| == 0 then false
    else if GroupMatches(groups[0], text) then true
    else SomeGroupMatches(groups[1..], text)
  }

  /** `matches_word_groups` */
  predicate MatchesWordGroups(title: string, groups: seq<WordGroup>, filterWords: seq<string>) {
    if |groups| == 0 then true
    else
      var text := Lower(title);
      if AnyPresent(filterWords, text) then false
      else SomeGroupMatches(groups, text)
  }

  lemma {:induction false} SomeGroupMatchesMeans(groups: seq<WordGroup>, text: string)
    ensures SomeGroupMatches(groups, text) <==> exists i :: 0 <= i < |groups| && GroupMatches(groups[i], text)
    decreases |groups|
  {
    if |groups| > 0 {
      SomeGroupMatchesMeans(groups[1..], text);
      if exists i :: 0 <= i < |groups| && GroupMatches(groups[i], text) {
        var i :| 0 <= i < |groups| && GroupMatches(groups[i], text);
        if i > 0 {
          assert groups[1..][i - 1] == groups[i];
        }
      }
      if exists i :: 0 <= i < |groups[1..]| && GroupMatches(groups[1..][i], text) {
        var i :| 0 <= i < |groups[1..]| && GroupMatches(groups[1..][i], text);
        assert groups[i + 1] == groups[1..][i];
      }
    }
  }

  /**
   * A title matches iff there are no groups, or no filter word occurs in it
   * (ignoring ASCII case) and some group has all its required words and, when
   * it has normal words, at least one of them.
   */
  lemma MatchesWordGroupsMeans(title: string, groups: seq<WordGroup>, filterWords: seq<string>)
    ensures MatchesWordGroups(title, groups, filterWords) <==>
      || |groups| == 0
      || (&& !AnyPresent(filterWords, Lower(title))
          && exists i :: 0 <= i < |groups|
               && AllPresent(groups[i].required, Lower(title))
               && (|groups[i].normal| == 0 || AnyPresent(groups[i].normal, Lower(title))))
  {
    SomeGroupMatchesMeans(groups, Lower(title));
  }

  /** A group with neither required nor normal words matches every title. */
  lemma EmptyGroupMatchesAll(title: string, key: string)
    ensures MatchesWordGroups(title, [WordGroup([], [], key)], [])
  {
    assert GroupMatches(WordGroup([], [], key), Lower(title));
  }

  // ---------------------------------------------------------------------------
  // Rank display
  // ---------------------------------------------------------------------------

  function Least(s: seq<int>): (m: int)
    requires |s| > 0
    ensures m in s && forall i :: 0 <= i < |s| ==> m <= s[i]
    decreases |s|
  {
    if |s| == 1 then s[0]
    else
      var rest := Least(s[1..]);
      if s[0] <= rest then s[0] else rest
  }

  function Greatest(s: seq<int>): (m: int)
    requires |s| > 0
    ensures m in s && forall i :: 0 <= i < |s| ==> s[i] <= m
    decreases |s|
  {
    if |s| == 1 then s[0]
    else
      var rest := Greatest(s[1..]);
      if s[0] >= rest then s[0] else rest
  }

  /** The rank numbers shown for `ranks`: the single rank when all are equal, else the least and the greatest. */
  function RangeOf(ranks: seq<int>): seq<int>
    requires |ranks| > 0
  {
    if Least(ranks) == Greatest(ranks) then [Least(ranks)] else [Least(ranks), Greatest(ranks)]
  }

  /** The numbers written between "[" and "]": one integer, or two around " - ". */
  function ReadRankBody(b: string): Option<seq<int>> {
    if |b| < 2 || b[0] != '[' || b[|b| - 1] != ']' then None
    else
      var inner := b[1..|b| - 1];
      match SplitOnce(inner, " - ")
      case None => if IsIntText(inner) then Some([IntValue(inner)]) else None
      case Some((x, y)) => if IsIntText(x) && IsIntText(y) then Some([IntValue(x), IntValue(y)]) else None
  }

  /** `[n]` for a single distinct rank, `[lo - hi]` for a range. */
  function RankBody(lo: int, hi: int): (r: string)
    ensures |r| > 0 && r[0] == '['
    ensures ReadRankBody(r) == Some(if lo == hi then [lo] else [lo, hi])
  {
    if lo == hi then
      SingleRankReadsBack(lo);
      "[" + IntToString(lo) + "]"
    else
      RankRangeReadsBack(lo, hi);
      "[" + IntToString(lo) + " - " + IntToString(hi) + "]"
  }

  lemma SingleRankReadsBack(n: int)
    ensures ReadRankBody("[" + IntToString(n) + "]") == Some([n])
  {
    var a := IntToString(n);
    var r := "[" + a + "]";
    IntToStringRoundTrip(n);
    assert r[1..|r| - 1] == a;
    IntTextHasNoSpace(a, " - ");
    assert SplitOnce(a, " - ") == None;
  }

  lemma RankRangeReadsBack(lo: int, hi: int)
    ensures ReadRankBody("[" + IntToString(lo) + " - " + IntToString(hi) + "]") == Some([lo, hi])
  {
    var a, b := IntToString(lo), IntToString(hi);
    var r := "[" + a + " - " + b + "]";
    IntToStringRoundTrip(lo);
    IntToStringRoundTrip(hi);
    assert r[1..|r| - 1] == a + " - " + b;
    IntTextThenSep(a, " - ", b);
  }

  /**
   * `r` shows the rank range of `ranks` (see `RangeOf`): between `start` and
   * `end` when the best rank is within `threshold`, bare otherwise.
   */
  predicate ShowsRange(r: string, ranks: seq<int>, threshold: int, start: string, end: string)
    requires |ranks| > 0
  {
    if Least(ranks) <= threshold then
      && |start| + |end| <= |r| && r[..|start|] == start && r[|r| - |end|..] == end
      && ReadRankBody(r[|start|..|r| - |end|]) == Some(RangeOf(ranks))
    else ReadRankBody(r) == Some(RangeOf(ranks))
  }

  /**
   * The rank range of `ranks` between `start` and `end` when its best rank is
   * within the threshold, bare otherwise; "" with no ranks.
   */
  function RankMarkup(ranks: seq<int>, threshold: int, start: string, end: string): (r: string)
    ensures r == "" <==> |ranks| == 0
    ensures |ranks| > 0 && |start| > 0 && start[0] != '[' ==> (StartsWith(r, start) <==> Least(ranks) <= threshold)
    ensures |ranks| > 0 ==> ShowsRange(r, ranks, threshold, start, end)
  {
    if |ranks| == 0 then ""
    else
      var body := RankBody(Least(ranks), Greatest(ranks));
      if Least(ranks) <= threshold then
        var r := start + body + end;
        assert r[..|start|] == start && r[|r| - |end|..] == end && r[|start|..|r| - |end|] == body;
        r
      else body
  }

  /** The highlight markup of each output format; dingtalk, wework and unknown formats use `**`. */
  function Highlight(format: string): (string, string) {
    if format == "html" then ("<font color='red'><strong>", "</strong></font>")
    else if format == "feishu" then ("<font color='red'>**", "**</font>")
    else if format == "telegram" then ("<b>", "</b>")
    else ("**", "**")
  }

  /** `format_rank_display` */
  function FormatRankDisplay(ranks: seq<int>, threshold: int, format: string): (r: string)
    ensures r == "" <==> |ranks| == 0
    ensures |ranks| > 0 ==> (StartsWith(r, Highlight(format).0) <==> Least(ranks) <= threshold)
    ensures |ranks| > 0 ==> ShowsRange(r, ranks, threshold, Highlight(format).0, Highlight(format).1)
  {
    RankMarkup(ranks, threshold, Highlight(format).0, Highlight(format).1)
  }

  /** Only the least and greatest distinct rank are shown: duplicates and order do not matter. */
  lemma RankMarkupDependsOnRange(a: seq<int>, b: seq<int>, threshold: int, start: string, end: string)
    requires |a| > 0 && |b| > 0
    requires forall x :: x in a <==> x in b
    ensures RankMarkup(a, threshold, start, end) == RankMarkup(b, threshold, start, end)
  {
    var la, lb := Least(a), Least(b);
    var i :| 0 <= i < |b| && b[i] == la;
    var j :| 0 <= j < |a| && a[j] == lb;
    assert la == lb;
    var ga, gb := Greatest(a), Greatest(b);
    var k :| 0 <= k < |b| && b[k] == ga;
    var l :| 0 <= l < |a| && a[l] == gb;
    assert ga == gb;
  }

  // ---------------------------------------------------------------------------
  // Matched news
  // ---------------------------------------------------------------------------

  /** One entry of the matched-news list. */
  datatype MatchedNews = MatchedNews(
    title: string,
    sourceId: string,
    sourceName: string,
    ranks: seq<int>,
    count: int,
    firstTime: string,
    lastTime: string,
    url: string,
    mobileUrl: string,
    weight: real)

  /** Everything the matching and scoring of one title depends on. */
  datatype Context = Context(
    groups: seq<WordGroup>,
    filterWords: seq<string>,
    idToName: map<string, string>,
    infos: Infos,
    threshold: int,
    config: Option<WeightConfig>)

  /** `id_to_name.get(id, id)` */
  function SourceName(idToName: map<string, string>, id: string): string {
    if id in idToName then idToName[id] else id
  }

  /**
   * The context in force: a missing record table is empty, and with no groups
   * a single group with no words stands in and the filter words are dropped.
   */
  function ContextFor(groups: seq<WordGroup>, filterWords: seq<string>, idToName: map<string, string>,
                      titleInfo: Option<Infos>, threshold: int, config: Option<WeightConfig>): Context
  {
    var infos := titleInfo.GetOr(Empty());
    if |groups| == 0 then Context([WordGroup([], [], "全部新闻")], [], idToName, infos, threshold, config)
    else Context(groups, filterWords, idToName, infos, threshold, config)
  }

  /** The entry of a matching title: built from its day record if there is one, else from its own data, seen once. */
  function NewsEntry(ctx: Context, p: string, x: string, d: TitleData): MatchedNews {
    var name := SourceName(ctx.idToName, p);
    if p in ctx.infos.vals && x in ctx.infos.vals[p].vals then
      var info := ctx.infos.vals[p].vals[x];
      MatchedNews(x, p, name, info.ranks, info.count, info.firstTime, info.lastTime, info.url, info.mobileUrl,
                  NewsWeight(info.ranks, Some(info.count), ctx.threshold, ctx.config))
    else
      MatchedNews(x, p, name, d.ranks, 1, "", "", d.url, d.mobileUrl,
                  NewsWeight(d.ranks, Some(1), ctx.threshold, ctx.config))
  }

  /** The entries of the matching titles among `keys` of one platform, in order. */
  function PlatformNews(ctx: Context, p: string, titles: Titles, keys: seq<string>): seq<MatchedNews>
    requires forall i :: 0 <= i < |keys| ==> keys[i] in titles.vals
    decreases |keys|
  {
    if |keys| == 0 then []
    else
      var x := keys[|keys| - 1];
      PlatformNews(ctx, p, titles, keys[..|keys| - 1])
      + (if MatchesWordGroups(x, ctx.groups, ctx.filterWords) then [NewsEntry(ctx, p, x, titles.vals[x])] else [])
  }

  /** The entries of the matching titles of the listed platforms, in encounter order. */
  function AllNews(ctx: Context, results: Results, platforms: seq<string>): seq<MatchedNews>
    requires ValidResults(results)
    requires forall i :: 0 <= i < |platforms| ==> platforms[i] in results.vals
    decreases |platforms|
  {
    if |platforms| == 0 then []
    else
      var p := platforms[|platforms| - 1];
      AllNews(ctx, results, platforms[..|platforms| - 1]) + PlatformNews(ctx, p, results.vals[p], results.vals[p].keys)
  }

  /** Title `x` is listed in `titles` of platform `p` and matches, and `item` is its entry. */
  ghost predicate EmitsFrom(ctx: Context, p: string, titles: Titles, x: string, item: MatchedNews) {
    && x in titles.vals
    && MatchesWordGroups(x, ctx.groups, ctx.filterWords)
    && item == NewsEntry(ctx, p, x, titles.vals[x])
  }

  /** Title `x` of platform `p` is listed and matches, and `item` is its entry. */
  ghost predicate Emits(ctx: Context, results: Results, p: string, x: string, item: MatchedNews) {
    p in results.vals && EmitsFrom(ctx, p, results.vals[p], x, item)
  }

  lemma {:induction false} PlatformNewsMembers(ctx: Context, p: string, titles: Titles, keys: seq<string>, item: MatchedNews)
    requires forall i :: 0 <= i < |keys| ==> keys[i] in titles.vals
    ensures item in PlatformNews(ctx, p, titles, keys) <==> exists x :: x in keys && EmitsFrom(ctx, p, titles, x, item)
    decreases |keys|
  {
    if |keys| > 0 {
      var front := keys[..|keys| - 1];
      var last := keys[|keys| - 1];
      PlatformNewsMembers(ctx, p, titles, front, item);
      assert keys == front + [last];
      if item in PlatformNews(ctx, p, titles, keys) && item !in PlatformNews(ctx, p, titles, front) {
        assert EmitsFrom(ctx, p, titles, last, item);
      }
    }
  }

  lemma AllNewsMembers(ctx: Context, results: Results, platforms: seq<string>, item: MatchedNews)
    requires ValidResults(results)
    requires forall i :: 0 <= i < |platforms| ==> platforms[i] in results.vals
    ensures item in AllNews(ctx, results, platforms) <==> exists p, x :: p in platforms && Emits(ctx, results, p, x, item)
  {
    if item in AllNews(ctx, results, platforms) {
      var p, x := AllNewsWitness(ctx, results, platforms, item);
    }
    if exists p, x :: p in platforms && Emits(ctx, results, p, x, item) {
      var p, x :| p in platforms && Emits(ctx, results, p, x, item);
      AllNewsComplete(ctx, results, platforms, p, x, item);
    }
  }

  /** Every entry of the list comes from a listed platform's matching title. */
  lemma {:induction false} AllNewsWitness(ctx: Context, results: Results, platforms: seq<string>, item: MatchedNews)
    returns (q: string, x: string)
    requires ValidResults(results)
    requires forall i :: 0 <= i < |platforms| ==> platforms[i] in results.vals
    requires item in AllNews(ctx, results, platforms)
    ensures q in platforms && Emits(ctx, results, q, x, item)
    decreases |platforms|
  {
    var n := |platforms| - 1;
    var front := platforms[..n];
    var p := platforms[n];
    var here := PlatformNews(ctx, p, results.vals[p], results.vals[p].keys);
    assert AllNews(ctx, results, platforms) == AllNews(ctx, results, front) + here;
    if item in AllNews(ctx, results, front) {
      q, x := AllNewsWitness(ctx, results, front, item);
      assert q in platforms by {
        var k :| 0 <= k < |front| && front[k] == q;
        assert platforms[k] == q;
      }
    } else {
      assert item in here;
      PlatformNewsMembers(ctx, p, results.vals[p], results.vals[p].keys, item);
      q := p;
      x :| x in results.vals[p].keys && EmitsFrom(ctx, p, results.vals[p], x, item);
    }
  }

  /** Every matching title of a listed platform has its entry in the list. */
  lemma {:induction false} AllNewsComplete(ctx: Context, results: Results, platforms: seq<string>, q: string, x: string, item: MatchedNews)
    requires ValidResults(results)
    requires forall i :: 0 <= i < |platforms| ==> platforms[i] in results.vals
    requires q in platforms && Emits(ctx, results, q, x, item)
    ensures item in AllNews(ctx, results, platforms)
    decreases |platforms|
  {
    var n := |platforms| - 1;
    var front := platforms[..n];
    var p := platforms[n];
    var here := PlatformNews(ctx, p, results.vals[p], results.vals[p].keys);
    assert AllNews(ctx, results, platforms) == AllNews(ctx, results, front) + here;
    if q == p {
      PlatformNewsMembers(ctx, p, results.vals[p], results.vals[p].keys, item);
      assert x in results.vals[p].keys;
      assert item in here;
    } else {
      assert q in front by {
        assert platforms == front + [p];
      }
      AllNewsComplete(ctx, results, front, q, x, item);
    }
  }

  /** The matched list holds exactly the entries of the listed, matching (platform, title) pairs. */
  lemma NewsMembers(ctx: Context, results: Results, item: MatchedNews)
    requires ValidResults(results)
    ensures item in AllNews(ctx, results, results.keys) <==> exists p, x :: Emits(ctx, results, p, x, item)
  {
    AllNewsMembers(ctx, results, results.keys, item);
  }

  /** With no groups every listed title is in the list, filter words notwithstanding. */
  lemma NoGroupsMatchAll(results: Results, filterWords: seq<string>, idToName: map<string, string>,
                         titleInfo: Option<Infos>, threshold: int, config: Option<WeightConfig>, p: string, x: string)
    requires ValidResults(results) && p in results.vals && x in results.vals[p].vals
    ensures var ctx := ContextFor([], filterWords, idToName, titleInfo, threshold, config);
      NewsEntry(ctx, p, x, results.vals[p].vals[x]) in AllNews(ctx, results, results.keys)
  {
    var ctx := ContextFor([], filterWords, idToName, titleInfo, threshold, config);
    EmptyGroupMatchesAll(x, "全部新闻");
    var item := NewsEntry(ctx, p, x, results.vals[p].vals[x]);
    assert Emits(ctx, results, p, x, item);
    NewsMembers(ctx, results, item);
  }

  /** The sort key of `reverse=True` on the weight. */
  function NegWeight(n: MatchedNews): real {
    -n.weight
  }

  /** The matching titles of one platform, in order. */
  method CollectPlatform(ctx: Context, p: string, titles: Titles) returns (items: seq<MatchedNews>)
    requires titles.Valid()
    ensures items == PlatformNews(ctx, p, titles, titles.keys)
  {
    items := [];
    var t := 0;
    while t < |titles.keys|
      invariant 0 <= t <= |titles.keys|
      invariant items == PlatformNews(ctx, p, titles, titles.keys[..t])
    {
      var x := titles.keys[t];
      assert titles.keys[..t + 1][..t] == titles.keys[..t];
      if MatchesWordGroups(x, ctx.groups, ctx.filterWords) {
        var name := SourceName(ctx.idToName, p);
        var item;
        if p in ctx.infos.vals && x in ctx.infos.vals[p].vals {
          var info := ctx.infos.vals[p].vals[x];
          var weight := NewsWeight(info.ranks, Some(info.count), ctx.threshold, ctx.config);
          item := MatchedNews(x, p, name, info.ranks, info.count, info.firstTime, info.lastTime, info.url, info.mobileUrl, weight);
        } else {
          var d := titles.vals[x];
          var weight := NewsWeight(d.ranks, Some(1), ctx.threshold, ctx.config);
          item := MatchedNews(x, p, name, d.ranks, 1, "", "", d.url, d.mobileUrl, weight);
        }
        items := items + [item];
      }
      t := t + 1;
    }
    assert titles.keys[..t] == titles.keys;
  }

  /**
   * `count_word_frequency`: the entries of all matching titles, platform by
   * platform, sorted by descending weight with ties in encounter order.
   */
  method CountWordFrequency(results: Results, groups: seq<WordGroup>, filterWords: seq<string>,
                            idToName: map<string, string>, titleInfo: Option<Infos>,
                            threshold: int, config: Option<WeightConfig>)
    returns (news: seq<MatchedNews>)
    requires ValidResults(results)
    ensures var ctx := ContextFor(groups, filterWords, idToName, titleInfo, threshold, config);
      news == InsertionSort(AllNews(ctx, results, results.keys), NegWeight)
    ensures var ctx := ContextFor(groups, filterWords, idToName, titleInfo, threshold, config);
      && SortedBy(news, NegWeight)
      && multiset(news) == multiset(AllNews(ctx, results, results.keys))
      && forall w :: Where(news, NegWeight, w) == Where(AllNews(ctx, results, results.keys), NegWeight, w)
  {
    var ctx := ContextFor(groups, filterWords, idToName, titleInfo, threshold, config);
    var matched := [];
    var i := 0;
    while i < |results.keys|
      invariant 0 <= i <= |results.keys|
      invariant matched == AllNews(ctx, results, results.keys[..i])
    {
      var p := results.keys[i];
      assert results.keys[..i + 1][..i] == results.keys[..i];
      var items := CollectPlatform(ctx, p, results.vals[p]);
      matched := matched + items;
      i := i + 1;
    }
    assert results.keys[..i] == results.keys;
    news := SortBy(matched, NegWeight);
  }
}

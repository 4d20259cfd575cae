/**
 * The application's glue between fetching and reporting: the fetched API
 * responses turned into one round's `{platform: {title: data}}` batch, and the
 * matched-news list wrapped into the single keyword group the report expects.
 */
module App {
  import opened Wrappers
  import opened Dicts
  import opened Records
  import opened Matcher
  import opened Reporter
  import opened Sorting

  /** One entry of a platform's "items" list; a missing field reads as "". */
  datatype ApiItem = ApiItem(title: string, url: string, mobileUrl: string)

  /** One element of the fetcher's result list. */
  datatype Fetched =
    | Response(platformId: string, items: seq<ApiItem>)  // a dict with "platform_id"; missing "items" read as []
    | Pair(platformId: string, titles: Titles)            // a `(platform_id, titles_dict)` tuple
    | Unrecognised                                         // anything else, skipped

  // ---------------------------------------------------------------------------
  // Items of one platform
  // ---------------------------------------------------------------------------

  /** The titles dict built from a platform's items: position `i` gives rank `i + 1`, empty titles are skipped. */
  function TitlesOf(items: seq<ApiItem>): (r: Titles)
    ensures r.Valid()
    decreases |items|
  {
    if |items| == 0 then Empty()
    else
      var d := TitlesOf(items[..|items| - 1]);
      var it := items[|items| - 1];
      if it.title != "" then d.Put(it.title, TitleData([|items|], it.url, it.mobileUrl)) else d
  }

  /** Exactly the non-empty titles of the items are listed. */
  lemma {:induction false} TitlesOfKeys(items: seq<ApiItem>, x: string)
    ensures x in TitlesOf(items).vals <==> x != "" && exists i :: 0 <= i < |items| && items[i].title == x
    decreases |items|
  {
    if |items| > 0 {
      var init := items[..|items| - 1];
      TitlesOfKeys(init, x);
      if x != "" && exists i :: 0 <= i < |items| && items[i].title == x {
        var i :| 0 <= i < |items| && items[i].title == x;
        if i < |items| - 1 {
          assert init[i].title == x;
        }
      }
      if exists i :: 0 <= i < |init| && init[i].title == x {
        var i :| 0 <= i < |init| && init[i].title == x;
        assert items[i].title == x;
      }
    }
  }

  /**
   * A title's data comes from its last item: rank = that item's position + 1,
   * with that item's urls. Earlier items with the same title are overwritten,
   * and skipped empty titles still use up their positions.
   */
  lemma {:induction false} TitlesOfLastWins(items: seq<ApiItem>, j: nat)
    requires j < |items| && items[j].title != ""
    requires forall k :: j < k < |items| ==> items[k].title != items[j].title
    ensures items[j].title in TitlesOf(items).vals
    ensures TitlesOf(items).vals[items[j].title] == TitleData([j + 1], items[j].url, items[j].mobileUrl)
    decreases |items|
  {
    var init := items[..|items| - 1];
    if j < |items| - 1 {
      TitlesOfLastWins(init, j);
    }
  }

  /** `titles_dict` filled by the loop over `enumerate(items)`. */
  method ConvertItems(items: seq<ApiItem>) returns (titles: Titles)
    ensures titles == TitlesOf(items)
  {
    titles := Empty();
    var idx := 0;
    while idx < |items|
      invariant 0 <= idx <= |items|
      invariant titles == TitlesOf(items[..idx])
    {
      assert items[..idx + 1][..idx] == items[..idx];
      var item := items[idx];
      if item.title != "" {
        titles := titles.Put(item.title, TitleData([idx + 1], item.url, item.mobileUrl));
      }
      idx := idx + 1;
    }
    assert items[..idx] == items;
  }

  // ---------------------------------------------------------------------------
  // The result list
  // ---------------------------------------------------------------------------

  /** `results`: each recognised element stored under its platform id, later elements overwriting earlier ones. */
  function ResultsOf(fetched: seq<Fetched>): (r: Results)
    ensures r.Valid()
    decreases |fetched|
  {
    if |fetched| == 0 then Empty()
    else
      var d := ResultsOf(fetched[..|fetched| - 1]);
      match fetched[|fetched| - 1]
      case Response(p, items) => d.Put(p, TitlesOf(items))
      case Pair(p, titles) => d.Put(p, titles)
      case Unrecognised => d
  }

  /** The platform id of a recognised element. */
  function IdOf(f: Fetched): Option<string> {
    match f
    case Response(p, _) => Some(p)
    case Pair(p, _) => Some(p)
    case Unrecognised => None
  }

  /**
   * A platform's entry comes from the last element for it: the converted items
   * of a response, or a tuple's dict passed through unchanged.
   */
  lemma {:induction false} ResultsOfLastWins(fetched: seq<Fetched>, j: nat)
    requires j < |fetched| && IdOf(fetched[j]).Some?
    requires forall k :: j < k < |fetched| ==> IdOf(fetched[k]) != IdOf(fetched[j])
    ensures var p := IdOf(fetched[j]).value;
      && p in ResultsOf(fetched).vals
      && ResultsOf(fetched).vals[p] == match fetched[j]
           case Response(_, items) => TitlesOf(items)
           case Pair(_, titles) => titles
           case Unrecognised => Empty()
    decreases |fetched|
  {
    if j < |fetched| - 1 {
      ResultsOfLastWins(fetched[..|fetched| - 1], j);
    }
  }

  /** Only recognised elements give platforms. */
  lemma {:induction false} ResultsOfKeys(fetched: seq<Fetched>, p: string)
    ensures p in ResultsOf(fetched).vals <==> exists i :: 0 <= i < |fetched| && IdOf(fetched[i]) == Some(p)
    decreases |fetched|
  {
    if |fetched| > 0 {
      var init := fetched[..|fetched| - 1];
      ResultsOfKeys(init, p);
      if exists i :: 0 <= i < |fetched| && IdOf(fetched[i]) == Some(p) {
        var i :| 0 <= i < |fetched| && IdOf(fetched[i]) == Some(p);
        if i < |fetched| - 1 {
          assert IdOf(init[i]) == Some(p);
        }
      }
      if exists i :: 0 <= i < |init| && IdOf(init[i]) == Some(p) {
        var i :| 0 <= i < |init| && IdOf(init[i]) == Some(p);
        assert fetched[i] == init[i];
      }
    }
  }

  /** The conversion loop of `_fetch_data`. */
  method CollectResults(fetched: seq<Fetched>) returns (results: Results)
    ensures results == ResultsOf(fetched)
  {
    results := Empty();
    var i := 0;
    while i < |fetched|
      invariant 0 <= i <= |fetched|
      invariant results == ResultsOf(fetched[..i])
    {
      assert fetched[..i + 1][..i] == fetched[..i];
      match fetched[i] {
        case Response(p, items) =>
          var titles := ConvertItems(items);
          results := results.Put(p, titles);
        case Pair(p, titles) =>
          results := results.Put(p, titles);
        case Unrecognised =>
      }
      i := i + 1;
    }
    assert fetched[..i] == fetched;
  }

  // ---------------------------------------------------------------------------
  // _analyze_and_match
  // ---------------------------------------------------------------------------

  /** The matched news as one group "热点新闻" counting them all, or no group when nothing matched. */
  function Wrap(news: seq<MatchedNews>): (r: seq<StatGroup>)
    ensures |news| == 0 <==> r == []
    ensures |news| > 0 ==> |r| == 1 && r[0].word == "热点新闻" && r[0].count == |news|
  {
    if |news| > 0 then [StatGroup("热点新闻", |news|, None, news)] else []
  }

  /** The groups' titles, one group after the other. */
  function Unwrap(stats: seq<StatGroup>): seq<MatchedNews>
    decreases |stats|
  {
    if |stats| == 0 then [] else Unwrap(stats[..|stats| - 1]) + stats[|stats| - 1].titles
  }

  /** Wrapping loses and reorders nothing: the group holds the matched list itself. */
  lemma UnwrapWrap(news: seq<MatchedNews>)
    ensures Unwrap(Wrap(news)) == news
  {
    if |news| > 0 {
      var w := Wrap(news);
      assert w[..0] == [];
    }
  }

  /** The application's keyword rule and scoring settings, loaded once at start-up. */
  class TrendRadarApp {
    var wordGroups: seq<WordGroup>
    var filterWords: seq<string>
    var rankThreshold: int
    var weights: Option<WeightConfig>

    constructor(wordGroups: seq<WordGroup>, filterWords: seq<string>, rankThreshold: int, weights: Option<WeightConfig>)
      ensures this.wordGroups == wordGroups && this.filterWords == filterWords
      ensures this.rankThreshold == rankThreshold && this.weights == weights
    {
      this.wordGroups := wordGroups;
      this.filterWords := filterWords;
      this.rankThreshold := rankThreshold;
      this.weights := weights;
    }

    /** The matched news, most important first, as one group, and how many matched. */
    method AnalyzeAndMatch(allResults: Results, idToName: map<string, string>, titleInfo: Option<Infos>)
      returns (stats: seq<StatGroup>, total: nat)
      requires ValidResults(allResults)
      ensures var ctx := ContextFor(wordGroups, filterWords, idToName, titleInfo, rankThreshold, weights);
        var news := AllNews(ctx, allResults, allResults.keys);
        && total == |news|
        && Unwrap(stats) == InsertionSort(news, NegWeight)
        && stats == Wrap(InsertionSort(news, NegWeight))
    {
      var news := CountWordFrequency(allResults, wordGroups, filterWords, idToName, titleInfo, rankThreshold, weights);
      ghost var ctx := ContextFor(wordGroups, filterWords, idToName, titleInfo, rankThreshold, weights);
      ghost var all := AllNews(ctx, allResults, allResults.keys);
      assert |multiset(news)| == |news| && |multiset(all)| == |all|;
      stats := Wrap(news);
      total := |news|;
      UnwrapWrap(news);
    }
  }
}

/** The records that flow through the crawl-merge-report pipeline. */
module Records {
  import opened Dicts

  /** One title of one round: `{"ranks": [...], "url": ..., "mobileUrl": ...}`. */
  datatype TitleData = TitleData(ranks: seq<int>, url: string, mobileUrl: string)

  /** The day-long record of one title on one platform. */
  datatype TitleInfo = TitleInfo(
    firstTime: string,
    lastTime: string,
    count: int,
    ranks: seq<int>,
    url: string,
    mobileUrl: string)

  /** title -> data, for one platform */
  type Titles = Dict<string, TitleData>

  /** platform id -> titles, for one round or the merged day */
  type Results = Dict<string, Titles>

  /** title -> record, for one platform */
  type InfoTable = Dict<string, TitleInfo>

  /** platform id -> records */
  type Infos = Dict<string, InfoTable>

  /** Every dictionary of a result set, outer and inner, is well formed. */
  ghost predicate ValidResults(r: Results) {
    r.Valid() && forall p :: p in r.vals ==> r.vals[p].Valid()
  }

  /** Python's `a or b` on strings: `a` unless it is empty. */
  function Or(a: string, b: string): string {
    if a != "" then a else b
  }
}

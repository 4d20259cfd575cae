/**
 * The day's dataset: folding each crawl round into the merged results and the
 * per-title records, detecting the titles new in the latest round, and the
 * day statistics.
 */
module Analyzer {
  import opened Wrappers
  import opened Dicts
  import opened Records

  // ---------------------------------------------------------------------------
  // Rank merging
  // ---------------------------------------------------------------------------

  /** `existing` followed by each rank of `incoming` not already present, in order. */
  function RankUnion(existing: seq<int>, incoming: seq<int>): seq<int>
    decreases |incoming|
  {
    if |incoming| == 0 then existing
    else RankUnion(if incoming[0] in existing then existing else existing + [incoming[0]], incoming[1..])
  }

  /** The `merged_ranks` loop of a repeated title. */
  method MergeRanks(existing: seq<int>, ranks: seq<int>) returns (merged: seq<int>)
    ensures merged == RankUnion(existing, ranks)
  {
    merged := existing;
    var k := 0;
    while k < |ranks|
      invariant 0 <= k <= |ranks|
      invariant RankUnion(merged, ranks[k..]) == RankUnion(existing, ranks)
    {
      assert ranks[k..][1..] == ranks[k + 1..];
      if ranks[k] !in merged {
        merged := merged + [ranks[k]];
      }
      k := k + 1;
    }
    assert ranks[k..] == [];
  }

  /**
   * The merged ranks start with the stored ones, hold exactly the stored and
   * incoming ranks, and hold no rank twice when the stored ones hold none twice.
   */
  lemma {:induction false} RankUnionShape(existing: seq<int>, incoming: seq<int>)
    ensures |existing| <= |RankUnion(existing, incoming)|
    ensures RankUnion(existing, incoming)[..|existing|] == existing
    ensures forall x :: x in RankUnion(existing, incoming) <==> x in existing || x in incoming
    ensures Distinct(existing) ==> Distinct(RankUnion(existing, incoming))
    decreases |incoming|
  {
    if |incoming| > 0 {
      var next := if incoming[0] in existing then existing else existing + [incoming[0]];
      RankUnionShape(next, incoming[1..]);
      var r := RankUnion(existing, incoming);
      assert r[..|next|][..|existing|] == r[..|existing|];
      assert incoming == [incoming[0]] + incoming[1..];
    }
  }

  /** Merging ranks that are all present already changes nothing. */
  lemma {:induction false} RankUnionAbsorbs(merged: seq<int>, incoming: seq<int>)
    requires forall i :: 0 <= i < |incoming| ==> incoming[i] in merged
    ensures RankUnion(merged, incoming) == merged
    decreases |incoming|
  {
    if |incoming| > 0 {
      RankUnionAbsorbs(merged, incoming[1..]);
    }
  }

  /** Merging the same ranks a second time changes nothing. */
  lemma RankUnionIdempotent(existing: seq<int>, incoming: seq<int>)
    ensures RankUnion(RankUnion(existing, incoming), incoming) == RankUnion(existing, incoming)
  {
    RankUnionShape(existing, incoming);
    var once := RankUnion(existing, incoming);
    forall i | 0 <= i < |incoming|
      ensures incoming[i] in once
    {
      var y := incoming[i];
      assert y in incoming;
    }
    RankUnionAbsorbs(RankUnion(existing, incoming), incoming);
  }

  // ---------------------------------------------------------------------------
  // Merging one round of one platform (specification)
  // ---------------------------------------------------------------------------

  /** The record of a title seen for the first time, in round `time`. */
  function FirstSeen(d: TitleData, time: string): TitleInfo {
    TitleInfo(time, time, 1, d.ranks, d.url, d.mobileUrl)
  }

  /** The stored data and record of `title`, when both tables hold it. */
  function Entry(titles: Titles, infos: InfoTable, title: string): Option<(TitleData, TitleInfo)> {
    if title in titles.vals && title in infos.vals then Some((titles.vals[title], infos.vals[title])) else None
  }

  /** The new data and record of one title after one sighting `d` in round `time`. */
  function MergeEntry(stored: Option<(TitleData, TitleInfo)>, d: TitleData, time: string): (TitleData, TitleInfo) {
    match stored
    case None => (d, FirstSeen(d, time))
    case Some(pair) =>
      var merged := RankUnion(pair.0.ranks, d.ranks);
      (TitleData(merged, Or(pair.0.url, d.url), Or(pair.0.mobileUrl, d.mobileUrl)),
       pair.1.(lastTime := time, ranks := merged, count := pair.1.count + 1,
               url := Or(pair.1.url, d.url), mobileUrl := Or(pair.1.mobileUrl, d.mobileUrl)))
  }

  /** The titles of `batch` from the `k`-th on, merged one by one into a known platform. */
  function MergeBatchFrom(titles: Titles, infos: InfoTable, batch: Titles, time: string, k: nat): (Titles, InfoTable)
    requires batch.Valid() && k <= |batch.keys|
    decreases |batch.keys| - k
  {
    if k == |batch.keys| then (titles, infos)
    else
      var title := batch.keys[k];
      var e := MergeEntry(Entry(titles, infos, title), batch.vals[title], time);
      MergeBatchFrom(titles.Put(title, e.0), infos.Put(title, e.1), batch, time, k + 1)
  }

  /** The records of the titles of `batch` from the `k`-th on, for a platform seen for the first time. */
  function FirstSeenFrom(infos: InfoTable, batch: Titles, time: string, k: nat): InfoTable
    requires batch.Valid() && k <= |batch.keys|
    decreases |batch.keys| - k
  {
    if k == |batch.keys| then infos
    else
      var title := batch.keys[k];
      FirstSeenFrom(infos.Put(title, FirstSeen(batch.vals[title], time)), batch, time, k + 1)
  }

  /** The day's results and records after platform `sourceId` reported `batch` in round `time`. */
  function MergeSource(results: Results, infos: Infos, sourceId: string, batch: Titles, time: string): (Results, Infos)
    requires batch.Valid()
  {
    if sourceId !in results.vals then
      (results.Put(sourceId, batch),
       infos.Put(sourceId, FirstSeenFrom(infos.Get(sourceId, Empty()), batch, time, 0)))
    else
      var merged := MergeBatchFrom(results.vals[sourceId], infos.Get(sourceId, Empty()), batch, time, 0);
      (results.Put(sourceId, merged.0), infos.Put(sourceId, merged.1))
  }

  /** One step of the merge: the `k`-th title merged, then the rest. */
  lemma MergeBatchFromStep(titles: Titles, infos: InfoTable, batch: Titles, time: string, k: nat)
    requires batch.Valid() && k < |batch.keys|
    ensures batch.keys[k] in batch.vals
    ensures var title := batch.keys[k];
      var e := MergeEntry(Entry(titles, infos, title), batch.vals[title], time);
      MergeBatchFrom(titles, infos, batch, time, k) == MergeBatchFrom(titles.Put(title, e.0), infos.Put(title, e.1), batch, time, k + 1)
  {
  }

  /** One step of a first sighting: the `k`-th title's record, then the rest. */
  lemma FirstSeenFromStep(infos: InfoTable, batch: Titles, time: string, k: nat)
    requires batch.Valid() && k < |batch.keys|
    ensures batch.keys[k] in batch.vals
    ensures var title := batch.keys[k];
      FirstSeenFrom(infos, batch, time, k) == FirstSeenFrom(infos.Put(title, FirstSeen(batch.vals[title], time)), batch, time, k + 1)
  {
  }

  /** No key of a dict is listed after its own position. */
  lemma KeyNotLater(batch: Titles, k: nat)
    requires batch.Valid() && k < |batch.keys|
    ensures batch.keys[k] !in batch.keys[k + 1..]
    ensures batch.keys[k..] == [batch.keys[k]] + batch.keys[k + 1..]
  {
    forall j | k + 1 <= j < |batch.keys| ensures batch.keys[j] != batch.keys[k] {}
  }

  // ---------------------------------------------------------------------------
  // The invariant: results and records describe the same titles
  // ---------------------------------------------------------------------------

  /** A title's merged data and its record carry the same ranks and links, and a positive count. */
  ghost predicate Agree(d: TitleData, info: TitleInfo) {
    d.ranks == info.ranks && d.url == info.url && d.mobileUrl == info.mobileUrl && info.count >= 1
  }

  ghost predicate TableAgrees(t: Titles, i: InfoTable) {
    && t.Valid() && i.Valid() && t.keys == i.keys
    && forall x :: x in t.vals && x in i.vals ==> Agree(t.vals[x], i.vals[x])
  }

  /** `all_results` and `title_info` list the same platforms and titles, in the same order, and agree. */
  ghost predicate Consistent(r: Results, f: Infos) {
    && r.Valid() && f.Valid() && r.keys == f.keys
    && forall p :: p in r.vals && p in f.vals ==> TableAgrees(r.vals[p], f.vals[p])
  }

  lemma PutAgrees(t: Titles, i: InfoTable, x: string, d: TitleData, info: TitleInfo)
    requires TableAgrees(t, i) && Agree(d, info)
    ensures TableAgrees(t.Put(x, d), i.Put(x, info))
  {
  }

  lemma ConsistentPut(r: Results, f: Infos, p: string, t: Titles, i: InfoTable)
    requires Consistent(r, f) && TableAgrees(t, i)
    ensures Consistent(r.Put(p, t), f.Put(p, i))
  {
  }

  lemma {:induction false} MergeBatchFromAgrees(titles: Titles, infos: InfoTable, batch: Titles, time: string, k: nat)
    requires batch.Valid() && k <= |batch.keys| && TableAgrees(titles, infos)
    ensures TableAgrees(MergeBatchFrom(titles, infos, batch, time, k).0, MergeBatchFrom(titles, infos, batch, time, k).1)
    decreases |batch.keys| - k
  {
    if k < |batch.keys| {
      MergeBatchFromStep(titles, infos, batch, time, k);
      var title := batch.keys[k];
      var stored := Entry(titles, infos, title);
      assert stored.Some? ==> Agree(stored.value.0, stored.value.1);
      var e := MergeEntry(stored, batch.vals[title], time);
      PutAgrees(titles, infos, title, e.0, e.1);
      MergeBatchFromAgrees(titles.Put(title, e.0), infos.Put(title, e.1), batch, time, k + 1);
    }
  }

  /** Each title of `batch` from the `k`-th on gets its first-seen record; other records are untouched. */
  lemma {:induction false} FirstSeenFromAt(infos: InfoTable, batch: Titles, time: string, k: nat, x: string)
    requires batch.Valid() && k <= |batch.keys|
    ensures var r := FirstSeenFrom(infos, batch, time, k);
      if x in batch.keys[k..] then x in r.vals && r.vals[x] == FirstSeen(batch.vals[x], time)
      else (x in r.vals <==> x in infos.vals) && (x in r.vals ==> r.vals[x] == infos.vals[x])
    decreases |batch.keys| - k
  {
    if k < |batch.keys| {
      FirstSeenFromStep(infos, batch, time, k);
      KeyNotLater(batch, k);
      var title := batch.keys[k];
      var next := infos.Put(title, FirstSeen(batch.vals[title], time));
      FirstSeenFromAt(next, batch, time, k + 1, x);
    }
  }

  /** Starting from the records of the titles before the `k`-th, the records list exactly the batch's titles. */
  lemma {:induction false} FirstSeenFromKeys(infos: InfoTable, batch: Titles, time: string, k: nat)
    requires batch.Valid() && k <= |batch.keys| && infos.Valid() && infos.keys == batch.keys[..k]
    ensures FirstSeenFrom(infos, batch, time, k).keys == batch.keys
    ensures FirstSeenFrom(infos, batch, time, k).Valid()
    decreases |batch.keys| - k
  {
    if k < |batch.keys| {
      var title := batch.keys[k];
      assert title !in batch.keys[..k];
      assert batch.keys[..k] + [title] == batch.keys[..k + 1];
      FirstSeenFromKeys(infos.Put(title, FirstSeen(batch.vals[title], time)), batch, time, k + 1);
    } else {
      assert batch.keys[..k] == batch.keys;
    }
  }

  /** Merging keeps `all_results` and `title_info` consistent. */
  lemma MergeSourceConsistent(results: Results, infos: Infos, sourceId: string, batch: Titles, time: string)
    requires Consistent(results, infos) && batch.Valid() && ValidResults(results)
    ensures Consistent(MergeSource(results, infos, sourceId, batch, time).0, MergeSource(results, infos, sourceId, batch, time).1)
  {
    if sourceId !in results.vals {
      assert sourceId !in infos.keys;
      var i := FirstSeenFrom(Empty(), batch, time, 0);
      FirstSeenFromKeys(Empty(), batch, time, 0);
      forall x | x in batch.vals && x in i.vals
        ensures Agree(batch.vals[x], i.vals[x])
      {
        FirstSeenFromAt(Empty(), batch, time, 0, x);
      }
      ConsistentPut(results, infos, sourceId, batch, i);
    } else {
      assert sourceId in infos.vals;
      MergeBatchFromAgrees(results.vals[sourceId], infos.vals[sourceId], batch, time, 0);
      var m := MergeBatchFrom(results.vals[sourceId], infos.vals[sourceId], batch, time, 0);
      ConsistentPut(results, infos, sourceId, m.0, m.1);
    }
  }

  lemma EntryAfterPut(titles: Titles, infos: InfoTable, title: string, e: (TitleData, TitleInfo), x: string)
    ensures Entry(titles.Put(title, e.0), infos.Put(title, e.1), x) == if x == title then Some(e) else Entry(titles, infos, x)
  {
  }

  /** Each title of `batch` from the `k`-th on gets its merged pair; every other title keeps its own. */
  lemma {:induction false} MergeBatchFromAt(titles: Titles, infos: InfoTable, batch: Titles, time: string, k: nat, x: string)
    requires batch.Valid() && k <= |batch.keys|
    ensures var m := MergeBatchFrom(titles, infos, batch, time, k);
      Entry(m.0, m.1, x)
        == if x in batch.keys[k..] then Some(MergeEntry(Entry(titles, infos, x), batch.vals[x], time))
           else Entry(titles, infos, x)
    decreases |batch.keys| - k
  {
    if k < |batch.keys| {
      MergeBatchFromStep(titles, infos, batch, time, k);
      KeyNotLater(batch, k);
      var title := batch.keys[k];
      var e := MergeEntry(Entry(titles, infos, title), batch.vals[title], time);
      var titles1, infos1 := titles.Put(title, e.0), infos.Put(title, e.1);
      MergeBatchFromAt(titles1, infos1, batch, time, k + 1, x);
      EntryAfterPut(titles, infos, title, e, x);
    }
  }

  /** The titles already stored keep their positions; new ones follow. */
  lemma {:induction false} MergeBatchFromKeys(titles: Titles, infos: InfoTable, batch: Titles, time: string, k: nat)
    requires batch.Valid() && k <= |batch.keys|
    ensures titles.keys <= MergeBatchFrom(titles, infos, batch, time, k).0.keys
    decreases |batch.keys| - k
  {
    if k < |batch.keys| {
      MergeBatchFromStep(titles, infos, batch, time, k);
      var title := batch.keys[k];
      var e := MergeEntry(Entry(titles, infos, title), batch.vals[title], time);
      var titles1 := titles.Put(title, e.0);
      assert titles.keys <= titles1.keys;
      MergeBatchFromKeys(titles1, infos.Put(title, e.1), batch, time, k + 1);
    }
  }

  /** The stored data and record of `title` on platform `sourceId`, if any. */
  function Stored(results: Results, infos: Infos, sourceId: string, title: string): Option<(TitleData, TitleInfo)> {
    if sourceId in results.vals && sourceId in infos.vals then Entry(results.vals[sourceId], infos.vals[sourceId], title)
    else None
  }

  /**
   * What merging a batch does to one title of its platform: a title of the
   * batch gets `MergeEntry` of what was stored, any other title keeps what was
   * stored (including nothing).
   */
  lemma MergeSourceAt(results: Results, infos: Infos, sourceId: string, batch: Titles, time: string, x: string)
    requires Consistent(results, infos) && batch.Valid()
    ensures var m := MergeSource(results, infos, sourceId, batch, time);
      && sourceId in m.0.vals && sourceId in m.1.vals
      && Stored(m.0, m.1, sourceId, x)
           == if x in batch.vals then Some(MergeEntry(Stored(results, infos, sourceId, x), batch.vals[x], time))
              else Stored(results, infos, sourceId, x)
  {
    assert batch.keys[0..] == batch.keys;
    if sourceId !in results.vals {
      assert sourceId !in infos.keys;
      FirstSeenFromAt(Empty(), batch, time, 0, x);
    } else {
      assert sourceId in infos.keys;
      MergeBatchFromAt(results.vals[sourceId], infos.vals[sourceId], batch, time, 0, x);
    }
  }

  /** Other platforms keep their titles and records; a new platform goes last. */
  lemma MergeSourceOthers(results: Results, infos: Infos, sourceId: string, batch: Titles, time: string)
    requires Consistent(results, infos) && batch.Valid()
    ensures var m := MergeSource(results, infos, sourceId, batch, time);
      && (forall q :: q != sourceId ==> (q in m.0.vals <==> q in results.vals) && (q in m.1.vals <==> q in infos.vals))
      && (forall q :: q != sourceId && q in results.vals ==> m.0.vals[q] == results.vals[q])
      && (forall q :: q != sourceId && q in infos.vals ==> m.1.vals[q] == infos.vals[q])
      && m.0.keys == (if sourceId in results.vals then results.keys else results.keys + [sourceId])
      && sourceId in m.0.vals
  {
  }

  /** The platform's stored titles keep their positions, and its titles become the stored ones plus the batch's. */
  lemma MergeSourceTitles(results: Results, infos: Infos, sourceId: string, batch: Titles, time: string)
    requires Consistent(results, infos) && batch.Valid() && ValidResults(results)
    ensures var m := MergeSource(results, infos, sourceId, batch, time);
      && sourceId in m.0.vals
      && (sourceId in results.vals ==> results.vals[sourceId].keys <= m.0.vals[sourceId].keys)
      && (forall x :: x in m.0.vals[sourceId].vals
            <==> x in batch.vals || (sourceId in results.vals && x in results.vals[sourceId].vals))
  {
    var m := MergeSource(results, infos, sourceId, batch, time);
    MergeSourceConsistent(results, infos, sourceId, batch, time);
    if sourceId in results.vals {
      assert sourceId in infos.keys;
      MergeBatchFromKeys(results.vals[sourceId], infos.vals[sourceId], batch, time, 0);
    }
    var t, i := m.0.vals[sourceId], m.1.vals[sourceId];
    assert TableAgrees(t, i);
    forall x
      ensures x in t.vals <==> x in batch.vals || (sourceId in results.vals && x in results.vals[sourceId].vals)
    {
      MergeSourceAt(results, infos, sourceId, batch, time, x);
      assert x in t.vals <==> x in t.keys;
      assert x in i.vals <==> x in i.keys;
      if sourceId in results.vals {
        assert TableAgrees(results.vals[sourceId], infos.vals[sourceId]);
      }
    }
  }

  /**
   * Nothing else changes: other platforms keep their titles and records, a new
   * platform goes last, the platform's stored titles keep their positions and
   * its titles become the stored ones plus the batch's; and the tables stay consistent.
   */
  lemma MergeSourceFrame(results: Results, infos: Infos, sourceId: string, batch: Titles, time: string)
    requires Consistent(results, infos) && batch.Valid() && ValidResults(results)
    ensures var m := MergeSource(results, infos, sourceId, batch, time);
      && Consistent(m.0, m.1)
      && (forall q :: q != sourceId ==> (q in m.0.vals <==> q in results.vals) && (q in m.1.vals <==> q in infos.vals))
      && (forall q :: q != sourceId && q in results.vals ==> m.0.vals[q] == results.vals[q])
      && (forall q :: q != sourceId && q in infos.vals ==> m.1.vals[q] == infos.vals[q])
      && m.0.keys == (if sourceId in results.vals then results.keys else results.keys + [sourceId])
      && sourceId in m.0.vals
      && (sourceId in results.vals ==> results.vals[sourceId].keys <= m.0.vals[sourceId].keys)
      && (forall x :: x in m.0.vals[sourceId].vals
            <==> x in batch.vals || (sourceId in results.vals && x in results.vals[sourceId].vals))
  {
    MergeSourceConsistent(results, infos, sourceId, batch, time);
    MergeSourceOthers(results, infos, sourceId, batch, time);
    MergeSourceTitles(results, infos, sourceId, batch, time);
  }

  /** A title not yet stored for its platform is stored as it came, with count 1 and first = last = this round. */
  lemma FirstSightingRecorded(results: Results, infos: Infos, sourceId: string, batch: Titles, time: string, x: string)
    requires Consistent(results, infos) && batch.Valid()
    requires x in batch.vals && Stored(results, infos, sourceId, x) == None
    ensures var m := MergeSource(results, infos, sourceId, batch, time);
      var d := batch.vals[x];
      && sourceId in m.0.vals && x in m.0.vals[sourceId].vals && m.0.vals[sourceId].vals[x] == d
      && sourceId in m.1.vals && x in m.1.vals[sourceId].vals
      && m.1.vals[sourceId].vals[x] == TitleInfo(time, time, 1, d.ranks, d.url, d.mobileUrl)
  {
    MergeSourceAt(results, infos, sourceId, batch, time, x);
  }

  /**
   * A title stored already: its ranks become the stored ones followed by the new
   * ones, in both tables; the count rises by one; the last-seen time becomes
   * this round and the first-seen time stays.
   */
  lemma RepeatSightingMerged(results: Results, infos: Infos, sourceId: string, batch: Titles, time: string, x: string)
    requires Consistent(results, infos) && batch.Valid()
    requires x in batch.vals && sourceId in results.vals && x in results.vals[sourceId].vals
    ensures sourceId in infos.vals && x in infos.vals[sourceId].vals
    ensures var m := MergeSource(results, infos, sourceId, batch, time);
      var before := infos.vals[sourceId].vals[x];
      && sourceId in m.0.vals && x in m.0.vals[sourceId].vals
      && sourceId in m.1.vals && x in m.1.vals[sourceId].vals
      && m.0.vals[sourceId].vals[x].ranks == RankUnion(results.vals[sourceId].vals[x].ranks, batch.vals[x].ranks)
      && m.1.vals[sourceId].vals[x].ranks == m.0.vals[sourceId].vals[x].ranks
      && m.1.vals[sourceId].vals[x].count == before.count + 1
      && m.1.vals[sourceId].vals[x].lastTime == time
      && m.1.vals[sourceId].vals[x].firstTime == before.firstTime
  {
    assert sourceId in infos.keys;
    assert x in infos.vals[sourceId].keys;
    MergeSourceAt(results, infos, sourceId, batch, time, x);
  }

  /** A stored non-empty link is never replaced; an empty one takes the incoming link. */
  lemma StoredLinksKept(results: Results, infos: Infos, sourceId: string, batch: Titles, time: string, x: string)
    requires Consistent(results, infos) && batch.Valid()
    requires x in batch.vals && sourceId in results.vals && x in results.vals[sourceId].vals
    ensures var m := MergeSource(results, infos, sourceId, batch, time);
      var before := results.vals[sourceId].vals[x];
      && sourceId in m.0.vals && x in m.0.vals[sourceId].vals
      && sourceId in m.1.vals && x in m.1.vals[sourceId].vals
      && m.0.vals[sourceId].vals[x].url == (if before.url != "" then before.url else batch.vals[x].url)
      && m.0.vals[sourceId].vals[x].mobileUrl
           == (if before.mobileUrl != "" then before.mobileUrl else batch.vals[x].mobileUrl)
      && m.1.vals[sourceId].vals[x].url == m.0.vals[sourceId].vals[x].url
      && m.1.vals[sourceId].vals[x].mobileUrl == m.0.vals[sourceId].vals[x].mobileUrl
  {
    assert sourceId in infos.keys;
    assert x in infos.vals[sourceId].keys;
    MergeSourceAt(results, infos, sourceId, batch, time, x);
  }

  /** Merging the same batch again leaves every title's ranks as they were, yet counts the sighting. */
  lemma MergeTwiceSameRanks(results: Results, infos: Infos, sourceId: string, batch: Titles, t1: string, t2: string, x: string)
    requires Consistent(results, infos) && ValidResults(results) && batch.Valid() && x in batch.vals
    ensures var m1 := MergeSource(results, infos, sourceId, batch, t1);
      var m2 := MergeSource(m1.0, m1.1, sourceId, batch, t2);
      && sourceId in m1.0.vals && x in m1.0.vals[sourceId].vals
      && sourceId in m1.1.vals && x in m1.1.vals[sourceId].vals
      && sourceId in m2.0.vals && x in m2.0.vals[sourceId].vals
      && sourceId in m2.1.vals && x in m2.1.vals[sourceId].vals
      && m2.0.vals[sourceId].vals[x].ranks == m1.0.vals[sourceId].vals[x].ranks
      && m2.1.vals[sourceId].vals[x].ranks == m1.1.vals[sourceId].vals[x].ranks
      && m2.1.vals[sourceId].vals[x].count == m1.1.vals[sourceId].vals[x].count + 1
  {
    var m1 := MergeSource(results, infos, sourceId, batch, t1);
    MergeSourceAt(results, infos, sourceId, batch, t1, x);
    MergeSourceConsistent(results, infos, sourceId, batch, t1);
    MergeSourceAt(m1.0, m1.1, sourceId, batch, t2, x);
    var s := Stored(results, infos, sourceId, x);
    if s.Some? {
      RankUnionIdempotent(s.value.0.ranks, batch.vals[x].ranks);
    } else {
      RankUnionAbsorbs(batch.vals[x].ranks, batch.vals[x].ranks);
    }
  }

  /** One title of a platform already known today: insert it, or merge it into its stored pair. */
  method MergeTitle(titles: Titles, table: InfoTable, title: string, data: TitleData, timeInfo: string)
    returns (titles': Titles, table': InfoTable)
    requires titles.Valid() && table.Valid() && titles.keys == table.keys
    ensures titles'.Valid() && table'.Valid() && titles'.keys == table'.keys
    ensures titles' == titles.Put(title, MergeEntry(Entry(titles, table, title), data, timeInfo).0)
    ensures table' == table.Put(title, MergeEntry(Entry(titles, table, title), data, timeInfo).1)
  {
    if title !in titles.vals {
      titles' := titles.Put(title, TitleData(data.ranks, data.url, data.mobileUrl));
      table' := table.Put(title, TitleInfo(timeInfo, timeInfo, 1, data.ranks, data.url, data.mobileUrl));
    } else {
      var existing := titles.vals[title];
      var merged := MergeRanks(existing.ranks, data.ranks);
      titles' := titles.Put(title, TitleData(merged, Or(existing.url, data.url), Or(existing.mobileUrl, data.mobileUrl)));
      var info := table.vals[title];
      info := info.(lastTime := timeInfo, ranks := merged, count := info.count + 1);
      if info.url == "" {
        info := info.(url := data.url);
      }
      if info.mobileUrl == "" {
        info := info.(mobileUrl := data.mobileUrl);
      }
      table' := table.Put(title, info);
    }
  }

  // ---------------------------------------------------------------------------
  // The day's dataset
  // ---------------------------------------------------------------------------

  /** The two dictionaries `process_source_data` updates in place. */
  class DayDataset {
    var allResults: Results
    var titleInfo: Infos

    ghost predicate Valid()
      reads this
    {
      Consistent(allResults, titleInfo) && ValidResults(allResults)
    }

    constructor()
      ensures Valid()
      ensures allResults == Empty() && titleInfo == Empty()
    {
      allResults := Empty();
      titleInfo := Empty();
    }

    /** Fold platform `sourceId`'s titles of round `timeInfo` into the day's data. */
    method ProcessSourceData(sourceId: string, titleData: Titles, timeInfo: string)
      requires Valid() && titleData.Valid()
      modifies this
      ensures Valid()
      ensures allResults == MergeSource(old(allResults), old(titleInfo), sourceId, titleData, timeInfo).0
      ensures titleInfo == MergeSource(old(allResults), old(titleInfo), sourceId, titleData, timeInfo).1
    {
      ghost var results0, infos0 := allResults, titleInfo;
      MergeSourceConsistent(results0, infos0, sourceId, titleData, timeInfo);
      if sourceId !in allResults.vals {
        allResults := allResults.Put(sourceId, titleData);
        var table := FirstSightings(titleInfo.Get(sourceId, Empty()), titleData, timeInfo);
        titleInfo := titleInfo.Put(sourceId, table);
      } else {
        var titles, table := MergeBatch(allResults.vals[sourceId], titleInfo.Get(sourceId, Empty()), titleData, timeInfo);
        allResults := allResults.Put(sourceId, titles);
        titleInfo := titleInfo.Put(sourceId, table);
      }
    }
  }

  /** The records of a platform seen for the first time: one first-seen record per title, in list order. */
  method FirstSightings(table: InfoTable, titleData: Titles, timeInfo: string) returns (r: InfoTable)
    requires titleData.Valid()
    ensures r == FirstSeenFrom(table, titleData, timeInfo, 0)
  {
    r := table;
    var k := 0;
    while k < |titleData.keys|
      invariant 0 <= k <= |titleData.keys|
      invariant FirstSeenFrom(r, titleData, timeInfo, k) == FirstSeenFrom(table, titleData, timeInfo, 0)
    {
      FirstSeenFromStep(r, titleData, timeInfo, k);
      var title := titleData.keys[k];
      var data := titleData.vals[title];
      r := r.Put(title, TitleInfo(timeInfo, timeInfo, 1, data.ranks, data.url, data.mobileUrl));
      k := k + 1;
    }
  }

  /** The titles of a platform known today merged one by one into its stored titles and records. */
  method MergeBatch(titles: Titles, table: InfoTable, titleData: Titles, timeInfo: string)
    returns (titles': Titles, table': InfoTable)
    requires titles.Valid() && table.Valid() && titles.keys == table.keys && titleData.Valid()
    ensures (titles', table') == MergeBatchFrom(titles, table, titleData, timeInfo, 0)
  {
    titles', table' := titles, table;
    var k := 0;
    while k < |titleData.keys|
      invariant 0 <= k <= |titleData.keys|
      invariant titles'.Valid() && table'.Valid() && titles'.keys == table'.keys
      invariant MergeBatchFrom(titles', table', titleData, timeInfo, k) == MergeBatchFrom(titles, table, titleData, timeInfo, 0)
    {
      MergeBatchFromStep(titles', table', titleData, timeInfo, k);
      var title := titleData.keys[k];
      titles', table' := MergeTitle(titles', table', title, titleData.vals[title], timeInfo);
      k := k + 1;
    }
  }

  // ---------------------------------------------------------------------------
  // New titles of the latest round
  // ---------------------------------------------------------------------------

  /** A platform passes the id filter: every platform when no id list is given. */
  predicate Kept(ids: Option<seq<string>>, p: string) {
    ids.None? || p in ids.value
  }

  /** The titles one round lists for platform `p`. */
  function TitlesOf(round: Results, p: string): set<string> {
    if p in round.vals then round.vals[p].vals.Keys else {}
  }

  /** The titles of platform `p` listed in any of `rounds`. */
  function Seen(rounds: seq<Results>, p: string): set<string>
    decreases |rounds|
  {
    if |rounds| == 0 then {} else Seen(rounds[..|rounds| - 1], p) + TitlesOf(rounds[|rounds| - 1], p)
  }

  /** `Seen` holds exactly the titles some round lists for the platform. */
  lemma {:induction false} SeenMeans(rounds: seq<Results>, p: string, x: string)
    ensures x in Seen(rounds, p) <==> exists j :: 0 <= j < |rounds| && x in TitlesOf(rounds[j], p)
    decreases |rounds|
  {
    if |rounds| > 0 {
      var front := rounds[..|rounds| - 1];
      SeenMeans(front, p, x);
      if x in Seen(front, p) {
        var j :| 0 <= j < |front| && x in TitlesOf(front[j], p);
        assert rounds[j] == front[j];
      }
      if exists j :: 0 <= j < |rounds| && x in TitlesOf(rounds[j], p) {
        var j :| 0 <= j < |rounds| && x in TitlesOf(rounds[j], p);
        if j < |front| {
          assert front[j] == rounds[j];
        }
      }
    }
  }

  /**
   * `title` is new on platform `p` in the latest of `rounds`: there are at least
   * two rounds, the platform passes the filter, the latest round lists the
   * title and no earlier round lists it for that platform.
   */
  predicate IsNewArrival(rounds: seq<Results>, ids: Option<seq<string>>, p: string, title: string) {
    && |rounds| >= 2
    && Kept(ids, p)
    && title in TitlesOf(rounds[|rounds| - 1], p)
    && title !in Seen(rounds[..|rounds| - 1], p)
  }

  function HistoryOf(history: map<string, set<string>>, p: string): set<string> {
    if p in history then history[p] else {}
  }

  /** `seen.add(x)` for each `x` of `xs`. */
  method AddAll(seen: set<string>, xs: seq<string>) returns (r: set<string>)
    ensures forall x :: x in r <==> x in seen || x in xs
  {
    r := seen;
    var t := 0;
    while t < |xs|
      invariant 0 <= t <= |xs|
      invariant forall x :: x in r <==> x in seen || x in xs[..t]
    {
      assert xs[..t + 1] == xs[..t] + [xs[t]];
      r := r + {xs[t]};
      t := t + 1;
    }
    assert xs[..t] == xs;
  }

  /** `h` is `history` with the titles of the first `s` platforms of `data` added. */
  ghost predicate HistorySoFar(history: map<string, set<string>>, data: Results, h: map<string, set<string>>, s: nat)
    requires ValidResults(data) && s <= |data.keys|
  {
    && (forall p :: p in h <==> p in history || p in data.keys[..s])
    && (forall p :: HistoryOf(h, p) == HistoryOf(history, p) + (if p in data.keys[..s] then TitlesOf(data, p) else {}))
  }

  lemma HistoryStep(history: map<string, set<string>>, data: Results, h: map<string, set<string>>, s: nat, titleSet: set<string>)
    requires ValidResults(data) && s < |data.keys| && HistorySoFar(history, data, h, s)
    requires titleSet == HistoryOf(h, data.keys[s]) + TitlesOf(data, data.keys[s])
    ensures HistorySoFar(history, data, h[data.keys[s] := titleSet], s + 1)
  {
    var p := data.keys[s];
    var h' := h[p := titleSet];
    var done, done' := data.keys[..s], data.keys[..s + 1];
    assert done' == done + [p];
    assert p !in done by {
      forall j | 0 <= j < s ensures data.keys[j] != p {}
    }
    forall q
      ensures q in h' <==> q in history || q in done'
    {
      assert q in done' <==> q in done || q == p;
    }
    forall q
      ensures HistoryOf(h', q) == HistoryOf(history, q) + (if q in done' then TitlesOf(data, q) else {})
    {
      assert q in done' <==> q in done || q == p;
    }
  }

  /** One earlier round's titles added to the per-platform history sets. */
  method AddRoundTitles(history: map<string, set<string>>, data: Results) returns (h: map<string, set<string>>)
    requires ValidResults(data)
    ensures forall p :: p in h <==> p in history || p in data.vals
    ensures forall p :: HistoryOf(h, p) == HistoryOf(history, p) + TitlesOf(data, p)
  {
    h := history;
    var s := 0;
    while s < |data.keys|
      invariant 0 <= s <= |data.keys|
      invariant HistorySoFar(history, data, h, s)
    {
      var p := data.keys[s];
      var current := if p in h then h[p] else {};
      var titleSet := AddAll(current, data.vals[p].keys);
      assert titleSet == HistoryOf(h, p) + TitlesOf(data, p) by {
        assert data.vals[p].Valid();
      }
      HistoryStep(history, data, h, s, titleSet);
      h := h[p := titleSet];
      s := s + 1;
    }
    assert data.keys[..s] == data.keys;
  }

  /** `found` holds the titles among the first `t` of the list that are not in `seen`, with their data. */
  ghost predicate UnseenSoFar(titles: Titles, seen: set<string>, found: Titles, t: nat)
    requires t <= |titles.keys|
  {
    && found.Valid()
    && (forall x :: x in found.vals <==> x in titles.keys[..t] && x !in seen)
    && (forall x :: x in found.vals ==> x in titles.vals && found.vals[x] == titles.vals[x])
  }

  lemma UnseenStep(titles: Titles, seen: set<string>, found: Titles, t: nat)
    requires titles.Valid() && t < |titles.keys| && UnseenSoFar(titles, seen, found, t)
    ensures titles.keys[t] in titles.vals
    ensures var x := titles.keys[t];
      UnseenSoFar(titles, seen, if x !in seen then found.Put(x, titles.vals[x]) else found, t + 1)
  {
    var x := titles.keys[t];
    assert titles.keys[..t + 1] == titles.keys[..t] + [x];
  }

  /** The titles of one platform's latest list that are not in `seen`, in list order. */
  method UnseenTitles(titles: Titles, seen: set<string>) returns (found: Titles)
    requires titles.Valid()
    ensures found.Valid()
    ensures forall x :: x in found.vals <==> x in titles.vals && x !in seen
    ensures forall x :: x in found.vals ==> found.vals[x] == titles.vals[x]
  {
    found := Empty();
    var t := 0;
    while t < |titles.keys|
      invariant 0 <= t <= |titles.keys|
      invariant UnseenSoFar(titles, seen, found, t)
    {
      UnseenStep(titles, seen, found, t);
      var x := titles.keys[t];
      if x !in seen {
        found := found.Put(x, titles.vals[x]);
      }
      t := t + 1;
    }
    assert titles.keys[..t] == titles.keys;
  }

  /** The per-platform sets of titles listed in `earlier`, for the platforms the filter keeps. */
  method CollectHistory(earlier: seq<Results>, ids: Option<seq<string>>) returns (history: map<string, set<string>>)
    requires forall j :: 0 <= j < |earlier| ==> ValidResults(earlier[j])
    ensures forall p :: p in history ==> Kept(ids, p)
    ensures forall p :: Kept(ids, p) ==> HistoryOf(history, p) == Seen(earlier, p)
  {
    history := map[];
    var j := 0;
    while j < |earlier|
      invariant 0 <= j <= |earlier|
      invariant forall p :: p in history ==> Kept(ids, p)
      invariant forall p :: Kept(ids, p) ==> HistoryOf(history, p) == Seen(earlier[..j], p)
    {
      var data := KeptPlatforms(earlier[j], ids);
      history := AddRoundTitles(history, data);
      forall p | Kept(ids, p)
        ensures HistoryOf(history, p) == Seen(earlier[..j + 1], p)
      {
        SeenStep(earlier, j, p);
      }
      j := j + 1;
    }
    assert earlier[..j] == earlier;
  }

  /** One round more adds that round's titles. */
  lemma SeenStep(rounds: seq<Results>, j: nat, p: string)
    requires j < |rounds|
    ensures Seen(rounds[..j + 1], p) == Seen(rounds[..j], p) + TitlesOf(rounds[j], p)
  {
    assert rounds[..j + 1][..j] == rounds[..j];
  }

  /** The round restricted to the platforms the filter keeps: their titles are untouched, the others are gone. */
  function KeptPlatforms(data: Results, ids: Option<seq<string>>): (r: Results)
    requires ValidResults(data)
    ensures ValidResults(r)
    ensures forall p :: p in r.vals ==> Kept(ids, p)
    ensures forall p :: Kept(ids, p) ==> TitlesOf(r, p) == TitlesOf(data, p)
  {
    if ids.Some? then Filter(data, p => p in ids.value) else data
  }

  /** The latest round's titles missing from their platform's history; platforms left empty are omitted. */
  method NewAgainstHistory(latest: Results, history: map<string, set<string>>) returns (newTitles: Results)
    requires ValidResults(latest)
    ensures ValidResults(newTitles)
    ensures forall p, x ::
      (p in newTitles.vals && x in newTitles.vals[p].vals) <==>
      (p in latest.vals && x in latest.vals[p].vals && x !in HistoryOf(history, p))
    ensures forall p, x :: p in newTitles.vals && x in newTitles.vals[p].vals ==>
      newTitles.vals[p].vals[x] == latest.vals[p].vals[x]
    ensures forall p :: p in newTitles.vals ==> |newTitles.vals[p].keys| > 0
  {
    newTitles := Empty();
    var k := 0;
    while k < |latest.keys|
      invariant 0 <= k <= |latest.keys|
      invariant ValidResults(newTitles)
      invariant forall p, x ::
        (p in newTitles.vals && x in newTitles.vals[p].vals) <==>
        (p in latest.keys[..k] && x in latest.vals[p].vals && x !in HistoryOf(history, p))
      invariant forall p, x :: p in newTitles.vals && x in newTitles.vals[p].vals ==>
        newTitles.vals[p].vals[x] == latest.vals[p].vals[x]
      invariant forall p :: p in newTitles.vals ==> |newTitles.vals[p].keys| > 0
    {
      var p := latest.keys[k];
      var found := UnseenTitles(latest.vals[p], HistoryOf(history, p));
      if |found.keys| > 0 {
        newTitles := newTitles.Put(p, found);
      }
      assert latest.keys[..k + 1] == latest.keys[..k] + [p];
      k := k + 1;
    }
    assert latest.keys[..k] == latest.keys;
  }

  /** Titles of the latest round never listed for their platform in an earlier round of the day. */
  method DetectLatestNewTitles(rounds: seq<Results>, ids: Option<seq<string>>) returns (newTitles: Results)
    requires forall j :: 0 <= j < |rounds| ==> ValidResults(rounds[j])
    ensures ValidResults(newTitles)
    ensures |rounds| < 2 ==> newTitles == Empty()
    ensures forall p, x :: p in newTitles.vals && x in newTitles.vals[p].vals <==> IsNewArrival(rounds, ids, p, x)
    ensures forall p, x :: p in newTitles.vals && x in newTitles.vals[p].vals ==>
      var latest := rounds[|rounds| - 1];
      p in latest.vals && x in latest.vals[p].vals && newTitles.vals[p].vals[x] == latest.vals[p].vals[x]
    ensures forall p :: p in newTitles.vals ==> |newTitles.vals[p].keys| > 0
  {
    newTitles := Empty();
    if |rounds| < 2 {
      return;
    }
    var latest := KeptPlatforms(rounds[|rounds| - 1], ids);
    var history := CollectHistory(rounds[..|rounds| - 1], ids);
    newTitles := NewAgainstHistory(latest, history);
  }

  // ---------------------------------------------------------------------------
  // Day statistics
  // ---------------------------------------------------------------------------

  datatype Statistics = Statistics(
    totalPlatforms: nat,
    totalTitles: nat,
    platformCounts: Dict<string, nat>,
    frequentTitles: Dict<string, int>)

  /** The number of titles of the listed platforms. */
  function TitleTotal(results: Results, platforms: seq<string>): nat
    decreases |platforms|
  {
    if |platforms| == 0 then 0
    else
      var p := platforms[|platforms| - 1];
      TitleTotal(results, platforms[..|platforms| - 1]) + (if p in results.vals then |results.vals[p].keys| else 0)
  }

  /** The sum of the counts stored for the listed keys. */
  function CountSum(counts: Dict<string, nat>, platforms: seq<string>): nat
    decreases |platforms|
  {
    if |platforms| == 0 then 0
    else CountSum(counts, platforms[..|platforms| - 1]) + counts.Get(platforms[|platforms| - 1], 0)
  }

  /** A title's count on one platform when it was seen in more than one round, else 0. */
  function RepeatsIn(table: InfoTable, title: string): int {
    if title in table.vals && table.vals[title].count > 1 then table.vals[title].count else 0
  }

  /** The counts above 1 of `title`, summed over the listed platforms that have records. */
  function Frequency(platforms: seq<string>, infos: Infos, title: string): int
    decreases |platforms|
  {
    if |platforms| == 0 then 0
    else
      var p := platforms[|platforms| - 1];
      Frequency(platforms[..|platforms| - 1], infos, title) + (if p in infos.vals then RepeatsIn(infos.vals[p], title) else 0)
  }

  /** A frequency is positive exactly when the title was seen more than once on one of the platforms. */
  lemma {:induction false} FrequencyPositive(platforms: seq<string>, infos: Infos, title: string)
    ensures Frequency(platforms, infos, title) >= 0
    ensures Frequency(platforms, infos, title) > 0 <==>
      exists i :: 0 <= i < |platforms| && platforms[i] in infos.vals && RepeatsIn(infos.vals[platforms[i]], title) > 1
    decreases |platforms|
  {
    if |platforms| > 0 {
      var front := platforms[..|platforms| - 1];
      FrequencyPositive(front, infos, title);
      if exists i :: 0 <= i < |front| && front[i] in infos.vals && RepeatsIn(infos.vals[front[i]], title) > 1 {
        var i :| 0 <= i < |front| && front[i] in infos.vals && RepeatsIn(infos.vals[front[i]], title) > 1;
        assert platforms[i] == front[i];
      }
      if exists i :: 0 <= i < |platforms| && platforms[i] in infos.vals && RepeatsIn(infos.vals[platforms[i]], title) > 1 {
        var i :| 0 <= i < |platforms| && platforms[i] in infos.vals && RepeatsIn(infos.vals[platforms[i]], title) > 1;
        if i < |front| {
          assert front[i] == platforms[i];
        }
      }
    }
  }

  /** Counting the same platforms through a table of their title counts gives the same total. */
  lemma {:induction false} TitleTotalIsCountSum(results: Results, counts: Dict<string, nat>, platforms: seq<string>)
    requires forall p :: p in results.vals <==> p in counts.vals
    requires forall p :: p in counts.vals ==> counts.vals[p] == |results.vals[p].keys|
    ensures TitleTotal(results, platforms) == CountSum(counts, platforms)
    decreases |platforms|
  {
    if |platforms| > 0 {
      TitleTotalIsCountSum(results, counts, platforms[..|platforms| - 1]);
    }
  }

  /** `r` is `freq` with the repeat counts of the first `t` records of `table` added. */
  ghost predicate RepeatsSoFar(freq: Dict<string, int>, table: InfoTable, r: Dict<string, int>, t: nat)
    requires t <= |table.keys|
  {
    && r.Valid()
    && (forall x :: x in r.vals <==> x in freq.vals || (x in table.keys[..t] && RepeatsIn(table, x) > 0))
    && (forall x :: x in r.vals ==> r.vals[x] == freq.Get(x, 0) + (if x in table.keys[..t] then RepeatsIn(table, x) else 0))
  }

  /** One record more: `r'` is `r` with the record's repeat count added to its title, if it has one. */
  lemma RepeatsStep(freq: Dict<string, int>, table: InfoTable, r: Dict<string, int>, t: nat, r': Dict<string, int>)
    requires table.Valid() && t < |table.keys| && RepeatsSoFar(freq, table, r, t)
    requires table.keys[t] in table.vals
    requires var x := table.keys[t];
      var n := RepeatsIn(table, x);
      && (n == 0 ==> r' == r)
      && (n > 0 ==> r'.keys == (if x in r.vals then r.keys else r.keys + [x]) && r'.vals == r.vals[x := r.Get(x, 0) + n])
    ensures RepeatsSoFar(freq, table, r', t + 1)
  {
    var x := table.keys[t];
    var done, done' := table.keys[..t], table.keys[..t + 1];
    assert done' == done + [x];
    assert x !in done by {
      forall j | 0 <= j < t ensures table.keys[j] != x {}
    }
  }

  /** `freq[title] += count`, starting from 0 for a title not listed yet. */
  method AddCount(freq: Dict<string, int>, title: string, count: int) returns (r: Dict<string, int>)
    ensures r.keys == if title in freq.vals then freq.keys else freq.keys + [title]
    ensures r.vals == freq.vals[title := freq.Get(title, 0) + count]
  {
    r := freq;
    if title !in r.vals {
      r := r.Put(title, 0);
    }
    r := r.Put(title, r.vals[title] + count);
  }

  /** Add each record's count, when above 1, to its title's running frequency. */
  method AddRepeats(freq: Dict<string, int>, table: InfoTable) returns (r: Dict<string, int>)
    requires freq.Valid() && table.Valid()
    ensures r.Valid()
    ensures forall x :: x in r.vals <==> x in freq.vals || RepeatsIn(table, x) > 0
    ensures forall x :: x in r.vals ==> r.vals[x] == freq.Get(x, 0) + RepeatsIn(table, x)
  {
    r := freq;
    var t := 0;
    while t < |table.keys|
      invariant 0 <= t <= |table.keys|
      invariant RepeatsSoFar(freq, table, r, t)
    {
      ghost var r0 := r;
      var title := table.keys[t];
      var count := table.vals[title].count;
      if count > 1 {
        r := AddCount(r, title, count);
      }
      RepeatsStep(freq, table, r0, t, r);
      t := t + 1;
    }
    RepeatsDone(freq, table, r);
  }

  lemma RepeatsDone(freq: Dict<string, int>, table: InfoTable, r: Dict<string, int>)
    requires table.Valid() && RepeatsSoFar(freq, table, r, |table.keys|)
    ensures r.Valid()
    ensures forall x :: x in r.vals <==> x in freq.vals || RepeatsIn(table, x) > 0
    ensures forall x :: x in r.vals ==> r.vals[x] == freq.Get(x, 0) + RepeatsIn(table, x)
  {
    assert table.keys[..|table.keys|] == table.keys;
  }

  /** One platform more adds its title count, listed last. */
  lemma CountStep(allResults: Results, i: nat, counts: Dict<string, nat>)
    requires ValidResults(allResults) && i < |allResults.keys|
    requires counts.Valid() && counts.keys == allResults.keys[..i]
    requires forall p :: p in counts.vals ==> p in allResults.vals && counts.vals[p] == |allResults.vals[p].keys|
    ensures allResults.keys[i] in allResults.vals
    ensures var p := allResults.keys[i];
      var next := counts.Put(p, |allResults.vals[p].keys|);
      && next.Valid() && next.keys == allResults.keys[..i + 1]
      && (forall q :: q in next.vals ==> q in allResults.vals && next.vals[q] == |allResults.vals[q].keys|)
  {
    var ks := allResults.keys;
    assert ks[..i + 1] == ks[..i] + [ks[i]];
    assert ks[i] !in counts.vals by {
      forall j | 0 <= j < i ensures ks[j] != ks[i] {}
    }
  }

  /** One platform more adds its title count to the total. */
  lemma TitleTotalStep(results: Results, ids: seq<string>, i: nat)
    requires i < |ids|
    ensures TitleTotal(results, ids[..i + 1])
      == TitleTotal(results, ids[..i]) + (if ids[i] in results.vals then |results.vals[ids[i]].keys| else 0)
  {
    assert ids[..i + 1][..i] == ids[..i];
  }

  /** The title count of each platform, in platform order, and their total. */
  method CountTitles(allResults: Results) returns (totalTitles: nat, counts: Dict<string, nat>)
    requires ValidResults(allResults)
    ensures totalTitles == TitleTotal(allResults, allResults.keys)
    ensures counts.Valid() && counts.keys == allResults.keys
    ensures forall p :: p in counts.vals ==> counts.vals[p] == |allResults.vals[p].keys|
  {
    var platforms := allResults.keys;
    totalTitles := 0;
    counts := Empty();
    var i := 0;
    while i < |platforms|
      invariant 0 <= i <= |platforms|
      invariant totalTitles == TitleTotal(allResults, platforms[..i])
      invariant counts.Valid() && counts.keys == platforms[..i]
      invariant forall p :: p in counts.vals ==> p in allResults.vals && counts.vals[p] == |allResults.vals[p].keys|
    {
      CountStep(allResults, i, counts);
      TitleTotalStep(allResults, platforms, i);
      var p := platforms[i];
      totalTitles := totalTitles + |allResults.vals[p].keys|;
      counts := counts.Put(p, |allResults.vals[p].keys|);
      i := i + 1;
    }
    assert platforms[..i] == platforms;
  }

  /** The `title_frequencies` loop over the platforms of the day. */
  method TitleFrequencies(platforms: seq<string>, titleInfo: Infos) returns (freq: Dict<string, int>)
    requires forall p :: p in titleInfo.vals ==> titleInfo.vals[p].Valid()
    ensures freq.Valid()
    ensures forall x :: x in freq.vals <==> Frequency(platforms, titleInfo, x) > 0
    ensures forall x :: x in freq.vals ==> freq.vals[x] == Frequency(platforms, titleInfo, x)
  {
    freq := Empty();
    var i := 0;
    while i < |platforms|
      invariant 0 <= i <= |platforms|
      invariant freq.Valid()
      invariant forall x :: x in freq.vals <==> Frequency(platforms[..i], titleInfo, x) > 0
      invariant forall x :: x in freq.vals ==> freq.vals[x] == Frequency(platforms[..i], titleInfo, x)
    {
      var p := platforms[i];
      assert platforms[..i + 1][..i] == platforms[..i];
      forall x {
        FrequencyPositive(platforms[..i], titleInfo, x);
      }
      if p in titleInfo.vals {
        freq := AddRepeats(freq, titleInfo.vals[p]);
      }
      i := i + 1;
    }
    assert platforms[..i] == platforms;
  }

  /** Platform and title totals, titles per platform, and the summed counts of titles seen more than once. */
  method CalculateStatistics(allResults: Results, titleInfo: Infos) returns (stats: Statistics)
    requires ValidResults(allResults)
    requires titleInfo.Valid() && forall p :: p in titleInfo.vals ==> titleInfo.vals[p].Valid()
    ensures stats.totalPlatforms == |allResults.keys|
    ensures stats.totalTitles == TitleTotal(allResults, allResults.keys)
    ensures stats.totalTitles == CountSum(stats.platformCounts, stats.platformCounts.keys)
    ensures stats.platformCounts.Valid() && stats.platformCounts.keys == allResults.keys
    ensures forall p :: p in stats.platformCounts.vals ==> stats.platformCounts.vals[p] == |allResults.vals[p].keys|
    ensures stats.frequentTitles.Valid()
    ensures forall x :: x in stats.frequentTitles.vals <==> Frequency(allResults.keys, titleInfo, x) > 0
    ensures forall x :: x in stats.frequentTitles.vals ==> stats.frequentTitles.vals[x] == Frequency(allResults.keys, titleInfo, x)
  {
    var totalTitles, counts := CountTitles(allResults);
    TitleTotalIsCountSum(allResults, counts, allResults.keys);
    var freq := TitleFrequencies(allResults.keys, titleInfo);
    stats := Statistics(|allResults.keys|, totalTitles, counts, freq);
  }
}

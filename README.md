# TrendRadar core, modelled in Dafny

TrendRadar crawls the hot-topic lists of news platforms several times a day,
keeps one text snapshot per crawl round, merges the day's rounds into one
dataset, scores and filters the headlines against a keyword-rule file, and
pushes the result to Feishu, WeWork and Telegram. This project models the
deterministic heart of that pipeline and proves what it promises:

- `Analyzer` (`trendradar/core/analyzer.py`): `process_source_data` as the
  class `DayDataset`, whose two fields (`all_results`, `title_info`) are updated
  in place; the new-arrival diff of `detect_latest_new_titles` over a sequence of
  parsed rounds; `calculate_statistics`.
- `Matcher` (`trendradar/core/matcher.py`): the news weight over exact reals,
  `matches_word_groups`, `format_rank_display` and `count_word_frequency`.
- `Storage`, `SnapshotFormat` and `SnapshotFile` (`trendradar/core/storage.py`):
  the snapshot writer, its parser, the round trip between them (a title line, a
  platform's section, and a whole file with its failed-request list), and the
  filter-then-fold of `read_all_today_titles` over the day's snapshots.
- `Config` (`trendradar/utils/config.py`): `load_frequency_words` on the file's text.
- `Reporter` (`trendradar/core/reporter.py`): `prepare_report_data`.
- `FileUtils`, `TimeUtils` (`trendradar/utils/file_utils.py`,
  `trendradar/utils/time_utils.py`): `clean_title`, `html_escape`,
  `format_time_display`, `is_in_time_range`.
- `Validator` (`trendradar/utils/validator.py`): the `ConfigValidator` checks,
  `DataValidator` item validation and cleaning, and the per-line check of the
  keyword file.
- `Batching`, `Notify`, `Telegram`, `WeWork`, `Feishu` (`trendradar/notifiers/`):
  greedy packing of a message into byte-bounded batches, the batch header, the
  per-title line of each channel, the group heading and heat marker, and the
  notice shown when nothing matched.
- `App` (`main.py`): the API items turned into one round's batch, and the
  matched list wrapped into the single group the report expects.

Supporting modules: `Dicts` models Python's insertion-ordered `dict` (the order
decides file layout, report order and sort ties), `Sorting` models the stable
`list.sort(key=...)`, `Text` writes out the `str` methods the code relies on
(`strip`, `split`, `rsplit`, `in`, `join`, `str(int)`, `int(str)` and
`str.isdigit` on ASCII digits, string
comparison, the UTF-8 length of section 3 of RFC 3629, and the whitespace
class of `str.isspace` and `re`'s `\s`), `Records` holds the shared records and
`Wrappers` the `Option` and `Result` types.

Where the code works by changing state step by step, the model does too:
each loop is a method with its invariants, proved equal to a specification
function, and the lemmas beside the function state what the source promises.
The clock, the filesystem and the network are not modelled: times, file
contents and fetched responses are parameters.

The snapshot round trip holds for a non-negative rank, a clean non-empty title
and fields holding neither link marker; `SnapshotFormat.EmptyTitleLine` shows
what happens otherwise: a title that is empty after cleaning is written as
"3. " and reads back as the title "3.".

## Model

| member | source | states |
|---|---|---|
| Analyzer.MergeRanks | trendradar/core/analyzer.py:82-85 | the `merged_ranks` loop yields exactly `RankUnion` of the stored and incoming ranks |
| Analyzer.RankUnionShape | trendradar/core/analyzer.py:82-85 | the merged ranks start with the stored ranks unchanged, hold exactly the stored and incoming ranks, and stay duplicate-free when the stored ranks are |
| Analyzer.RankUnionAbsorbs | trendradar/core/analyzer.py:83-85 | incoming ranks that are all present already leave the list unchanged |
| Analyzer.RankUnionIdempotent | trendradar/core/analyzer.py:82-85 | merging the same incoming ranks twice gives the same list as merging them once |
| Analyzer.MergeSourceConsistent | trendradar/core/analyzer.py:32-100 | after a merge, `all_results` and `title_info` still list the same platforms and titles in the same order, with equal ranks and links and a positive count |
| Analyzer.MergeSourceAt | trendradar/core/analyzer.py:32-100 | per title: a title of the batch gets the merged pair of what was stored (a first-seen pair when nothing was), and every other title keeps what it had |
| Analyzer.MergeSourceOthers | trendradar/core/analyzer.py:32-37 | other platforms keep their titles and records; a platform seen for the first time is added last |
| Analyzer.MergeSourceTitles | trendradar/core/analyzer.py:32-73 | the platform's stored titles keep their positions and its title set becomes the stored titles plus the batch's |
| Analyzer.MergeSourceFrame | trendradar/core/analyzer.py:32-100 | nothing else changes: the consistency of both tables, the untouched other platforms, the platform order and the platform's new title set, together |
| Analyzer.FirstSightingRecorded | trendradar/core/analyzer.py:32-73 | a title not stored yet is stored as it came, and its record has count 1, first = last = this round, and the same ranks and links |
| Analyzer.RepeatSightingMerged | trendradar/core/analyzer.py:76-96 | a repeated title gets the rank union in both tables, its count rises by one, last_time becomes this round and first_time is kept |
| Analyzer.StoredLinksKept | trendradar/core/analyzer.py:87-100 | a stored non-empty url or mobileUrl is never replaced, an empty one takes the incoming link, and both tables end with the same links |
| Analyzer.MergeTwiceSameRanks | trendradar/core/analyzer.py:82-96 | merging the same batch again leaves every title's ranks as they were, yet its count rises by exactly one |
| Analyzer.MergeTitle | trendradar/core/analyzer.py:54-100 | one title of a known platform is inserted or merged into both tables, which keep the same keys |
| Analyzer.DayDataset.constructor | trendradar/core/analyzer.py:20-21 | the day starts with both tables empty and consistent |
| Analyzer.DayDataset.ProcessSourceData | trendradar/core/analyzer.py:16-100 | the two fields become `MergeSource` of their old values, and the tables stay consistent |
| Analyzer.FirstSightings | trendradar/core/analyzer.py:36-51 | a platform seen for the first time gets one first-seen record per title, in list order |
| Analyzer.MergeBatch | trendradar/core/analyzer.py:54-100 | the titles of a known platform are merged one by one, as the specification fold does |
| Analyzer.SeenMeans | trendradar/core/analyzer.py:141-156 | a title is in the history of a platform iff some earlier round lists it for that platform |
| Analyzer.AddAll | trendradar/core/analyzer.py:155-156 | the set after the adds holds exactly the old members and the added titles |
| Analyzer.AddRoundTitles | trendradar/core/analyzer.py:152-156 | each platform's history set grows by exactly that round's titles of the platform; no other set changes |
| Analyzer.UnseenTitles | trendradar/core/analyzer.py:163-167 | the platform's latest titles that are not in the history, each with its latest data |
| Analyzer.CollectHistory | trendradar/core/analyzer.py:140-156 | the history holds only platforms the id filter keeps, and for each of them exactly the titles some earlier round lists |
| Analyzer.KeptPlatforms | trendradar/core/analyzer.py:131-150 | the filtered round holds only platforms the id filter keeps, with their titles untouched |
| Analyzer.NewAgainstHistory | trendradar/core/analyzer.py:158-171 | a title is reported iff the latest round lists it and the platform's history does not; it keeps its latest data and platforms with nothing new are omitted |
| Analyzer.DetectLatestNewTitles | trendradar/core/analyzer.py:121-174 | fewer than two rounds give an empty result; otherwise a title is reported iff it is a new arrival (in the latest round, never in an earlier one, platform kept by the filter), with the latest data, and no platform is left empty |
| Analyzer.FrequencyPositive | trendradar/core/analyzer.py:196-204 | a title's frequency is never negative, and positive iff some listed platform recorded it more than once |
| Analyzer.TitleTotalIsCountSum | trendradar/core/analyzer.py:188-193 | summing titles per platform over the results equals summing the per-platform counts table |
| Analyzer.AddCount | trendradar/core/analyzer.py:202-204 | `freq[title] += count` starting from 0, and a new title is appended at the end |
| Analyzer.AddRepeats | trendradar/core/analyzer.py:199-204 | each record counted more than once adds its count to its title's frequency; nothing else changes |
| Analyzer.CountTitles | trendradar/core/analyzer.py:188-193 | the title count of each platform in platform order, and their total |
| Analyzer.TitleFrequencies | trendradar/core/analyzer.py:196-204 | a title is listed iff its frequency is positive, and then with that frequency |
| Analyzer.CalculateStatistics | trendradar/core/analyzer.py:177-214 | the platform total, the title total equal to the sum of the per-platform counts, and the frequencies of titles seen more than once |
| App.TitlesOf | main.py:177-189 | the titles dict built from one platform's items is a well-formed ordered dict; its contents are stated by the two lemmas below |
| App.TitlesOfKeys | main.py:179-189 | exactly the non-empty titles among the items are listed |
| App.TitlesOfLastWins | main.py:179-189 | a title's data comes from its last item: rank = that item's position + 1 (skipped empty titles still use up positions), with that item's urls |
| App.ConvertItems | main.py:177-189 | the `enumerate(items)` loop builds exactly `TitlesOf(items)` |
| App.ResultsOf | main.py:167-195 | the round's results dict is a well-formed ordered dict; its contents are stated by the two lemmas below |
| App.ResultsOfLastWins | main.py:168-195 | a platform's entry comes from the last element for it: the converted items of a response, or a tuple's dict passed through unchanged |
| App.ResultsOfKeys | main.py:168-195 | a platform is listed iff some recognised element (response dict or pair) names it |
| App.CollectResults | main.py:167-195 | the conversion loop of `_fetch_data` builds exactly `ResultsOf(fetched)` |
| App.Wrap | main.py:263-280 | an empty match list gives no group; a non-empty one gives exactly one group "热点新闻" whose count is the list length |
| App.UnwrapWrap | main.py:269-275 | the single group holds the matched list itself, in order, so wrapping loses nothing |
| App.TrendRadarApp.constructor | main.py:54-104 | the app keeps the loaded keyword groups, filter words, rank threshold and weights |
| App.TrendRadarApp.AnalyzeAndMatch | main.py:231-284 | the result is the wrapped list of all matching news sorted by weight (descending, stable), and the total is the number of matches |
| Batching.Pack | trendradar/notifiers/telegram.py:218-230 | greedy packing gives no group exactly when there are no lines |
| Batching.TrimmedAt | trendradar/notifiers/telegram.py:224-230 | the k-th batch is the k-th group's text with trailing whitespace removed |
| Batching.StepKeepsLines | trendradar/notifiers/telegram.py:220-227 | a packing step appends the line to the packed lines and changes nothing else |
| Batching.StepKeepsShape | trendradar/notifiers/telegram.py:220-227 | a packing step keeps the groups non-empty, within the limit unless a single line, and closed only when full |
| Batching.OpenKeepsShape | trendradar/notifiers/telegram.py:222-225 | a line that does not fit opens its own group and the shape invariants still hold |
| Batching.ExtendKeepsShape | trendradar/notifiers/telegram.py:226-227 | a line that fits joins the last group and the shape invariants still hold |
| Batching.PackKeepsLines | trendradar/notifiers/telegram.py:218-230 | no line is lost, duplicated or moved: the groups hold the lines in order |
| Batching.PackShape | trendradar/notifiers/telegram.py:220-227 | every group is non-empty and fits unless it is a single line, and a new group starts only when the next line would overflow the open one |
| Batching.TrimOnlyDropsSpace | trendradar/notifiers/telegram.py:224 | `rstrip` only removes trailing whitespace, so a batch is a prefix of its group's text and never longer in bytes |
| Batching.FitsInOneBatch | trendradar/notifiers/telegram.py:211-214 | content within the limit comes back as the single batch `[content]`, unchanged |
| Batching.BatchesOfLongContent | trendradar/notifiers/telegram.py:216-232 | over-long content gives one batch per group of the greedy packing of its lines, each the group's text right-trimmed, and the groups hold the lines in order |
| Batching.NeverEmpty | trendradar/notifiers/telegram.py:232 | there is always at least one batch |
| Batching.BatchesFit | trendradar/notifiers/telegram.py:220-230 | every batch fits in the limit, unless it is a single line that is too long on its own |
| Batching.GroupBatchFits | trendradar/notifiers/telegram.py:224-230 | a group's batch fits, or the group is a single line |
| Batching.SplitIntoBatches | trendradar/notifiers/telegram.py:209-232 | the loop returns exactly the batches of the specification (the same code is wework.py:184-207) |
| Batching.AddLine | trendradar/notifiers/telegram.py:221-227 | one turn of the loop moves the open batch and the closed batches as one packing step does |
| Batching.LastBatch | trendradar/notifiers/telegram.py:229-230 | after the last line the open batch is non-empty and closing it completes the batch list |
| Batching.OverflowsWhen | trendradar/notifiers/telegram.py:221-222 | the byte test on `current_batch + line + "\n"` is exactly the overflow test on the open group |
| Batching.StepState | trendradar/notifiers/telegram.py:222-227 | on overflow the open group is closed and the line opens the next one; otherwise the line joins the open group |
| Batching.Labelled | trendradar/notifiers/telegram.py:260-269 | each sent text ends with its batch; with one batch or none the texts are the batches, and with more the k-th text (from 0) opens with the open markup and "第 ", whose number pair reads back as k+1 and the batch count, followed by " 批次", the close markup and a blank line |
| Batching.Header | trendradar/notifiers/telegram.py:268 | the batch header opens with the markup and "第 ", and its "i/n" reads back as the batch number and count, followed by " 批次", the closing markup and a blank line |
| Config.NonBlankMeans | trendradar/utils/config.py:158-164 | every kept part is stripped and non-empty, and a string is kept iff it is the stripped form of some non-blank part |
| Config.WordLists | trendradar/utils/config.py:163-164 | one word list per group text, each the group's stripped non-blank lines |
| Config.ClassifyWords | trendradar/utils/config.py:170-177 | each word lands in exactly one of filter, required or normal words; `!x` gives filter word x, `+x` required word x (`!` checked first), anything else is a normal word as written |
| Config.EmittedGroupsHaveWords | trendradar/utils/config.py:179-191 | every emitted group has a required or normal word, and its key is its normal words joined by a space, or its required words when it has no normal ones |
| Config.GroupsFromFile | trendradar/utils/config.py:163-191 | every emitted group is the group of one of the file's word lists |
| Config.EmittingListsIncrease | trendradar/utils/config.py:163-191 | the positions of the word lists that emit a group are positions of the file's groups, strictly increasing |
| Config.EmittingListsMembers | trendradar/utils/config.py:179-191 | a position is among them exactly when its word list has a required or a normal word, so that its group is appended |
| Config.GroupsInFileOrder | trendradar/utils/config.py:163-191 | the emitted groups are, one for one and in the same order, the groups of the word lists at those positions |
| Config.GroupsFromFileComplete | trendradar/utils/config.py:179-191 | every word list with a required or a normal word has its group among the emitted groups |
| Config.GroupsKeepFileOrder | trendradar/utils/config.py:163-191 | of two word lists that both give a group, the earlier one's group comes first among the emitted groups |
| Config.FiltersFromEveryGroup | trendradar/utils/config.py:170-173 | a word is a filter word iff some group, including one that emits nothing, lists it with `!` |
| Config.FiltersStep | trendradar/utils/config.py:170-173 | the filter words are those of the earlier groups followed by those of the last group, in order |
| Config.CollectNonBlank | trendradar/utils/config.py:158 | the list comprehension collects exactly the stripped non-blank parts, in order |
| Config.SortWords | trendradar/utils/config.py:166-177 | the word loop sorts the group's words into exactly its required, normal and filter words |
| Config.BuildGroup | trendradar/utils/config.py:166-191 | one group's words give its group when it has required or normal words, and always its filter words |
| Config.ProcessGroups | trendradar/utils/config.py:160-193 | the loop over the groups returns exactly the groups and filter words of the specification |
| Config.CollectWordLists | trendradar/utils/config.py:163-164 | the words of every group, group by group |
| Config.LoadFrequencyWords | trendradar/utils/config.py:155-193 | the file's text gives exactly the specified groups and filter words, and every emitted group has a required or normal word |
| Notify.LinkOf | trendradar/notifiers/feishu.py:41 | the link is the mobile url when it is non-empty, otherwise the url |
| Notify.NewMark | trendradar/notifiers/feishu.py:50 | the mark is exactly "🆕 " for a new title and empty otherwise |
| Notify.MarkdownLink | trendradar/notifiers/feishu.py:43-47 | with no link the result is the title alone; with one it is exactly "[", the title, "](", the link and ")" |
| Notify.RankSuffix | trendradar/notifiers/feishu.py:58-78 | no rank text iff there are no ranks; otherwise a space and then the rank display: its bracket reads back as "[n]" for a single distinct rank and as "[min - max]" otherwise, inside the channel's highlight markup iff the best rank is within the threshold |
| Notify.CountSuffix | trendradar/notifiers/feishu.py:85-88 | the count suffix is present iff the count is above 1 |
| Notify.CountSuffixReadsBack | trendradar/notifiers/feishu.py:86-88 | the count suffix is the markup around decimal digits whose value is the count |
| Notify.HeatMarker | trendradar/notifiers/feishu.py:110-116 | 🔥 iff the group has at least 10 titles, 📈 iff 5 to 9, 📌 iff fewer than 5 |
| Notify.HeatMarkerMonotone | trendradar/notifiers/feishu.py:110-116 | a group with more titles never gets a cooler marker |
| Notify.ModeText | trendradar/notifiers/feishu.py:130-136 | the "no match" wording for incremental mode, for current mode, and for any other mode |
| Notify.EmptyNotice | trendradar/notifiers/feishu.py:129-137 | the "📭" notice is present exactly when there are no keyword groups, worded by the report mode |
| Feishu.TitleParts | trendradar/notifiers/feishu.py:30-90 | the grey source tag iff show_source, exactly "🆕 " iff new, the cleaned title linked to the mobile url or else the url, a rank part that is a space and the display whose bracket reads back as "[n]" or "[min - max]", red-bold iff the best rank is within the threshold, the grey time suffix iff a time display is given, and the green count suffix only above 1 |
| Feishu.FormatTitleLayout | trendradar/notifiers/feishu.py:30-90 | `_format_title` (Feishu.FormatTitle) starts with the grey source tag when shown, then "🆕 " when new, then the cleaned title as `[title](link)` (plain without a link), and ends with the green count suffix, shown when the count is above 1 |
| Feishu.NewTitleParts | trendradar/notifiers/feishu.py:151-157 | a new title is rendered from a copy marked not new and without source: no "🆕 " and no source tag, every other part as for the title itself |
| Feishu.CountText | trendradar/notifiers/feishu.py:111-116 | a group's count is shown red from 10 titles, orange from 5, plain below |
| Feishu.GroupHeading | trendradar/notifiers/feishu.py:104-116 | the heading of group i (from 0) of n is the heat marker, the grey "[", a number pair that reads back as i+1 and n, "]</font>", then the bold word, " : ", the count in its colour and " 条" and a blank line |
| Feishu.Opening | trendradar/notifiers/feishu.py:99-137 | the body opens with the statistics heading when there are groups, and otherwise with the "📭" notice worded by the report mode |
| WeWork.TitleParts | trendradar/notifiers/wework.py:42-86 | "[source] " iff show_source, exactly "🆕 " iff new, the cleaned title as `[title](link)` preferring the mobile url and plain with no link, a rank part that is a space and the display whose bracket reads back as "[n]" or "[min - max]", bold iff the best rank is within the threshold, " - time" iff a time display is given, and " (N次)" only above 1 |
| WeWork.FormatTitleLayout | trendradar/notifiers/wework.py:42-86 | `_format_title` (WeWork.FormatTitle) starts with "[source] " when shown, then "🆕 " when new, then the cleaned title as `[title](link)` (plain without a link), and ends with the count suffix, " (n次)" when n is above 1 |
| WeWork.NewTitleParts | trendradar/notifiers/wework.py:159-165 | a new title is rendered from a copy marked not new and without source: no "🆕 " and no source tag, every other part as for the title itself |
| WeWork.CountText | trendradar/notifiers/wework.py:118-127 | a group's count is shown in bold from 5 titles and plain below |
| WeWork.GroupHeading | trendradar/notifiers/wework.py:112-127 | the heading of group i (from 0) of n is the heat marker, " [", a number pair that reads back as i+1 and n, "]", then the bold word, " : ", the count and " 条" and a blank line |
| WeWork.Messages | trendradar/notifiers/wework.py:224-239 | the posted texts are the batches of the rendered content, each behind a "**[第 i/n 批次]**" header only when there are several; content within the limit is posted unchanged |
| Telegram.EscapeConcat | trendradar/notifiers/telegram.py:55-61 | the notifier's escape works piecewise: escaping a concatenation concatenates the escapes |
| Telegram.EscapeOne | trendradar/notifiers/telegram.py:55-61 | a single character escapes to its one fixed replacement, or to itself |
| Telegram.EscapeIsPerChar | trendradar/notifiers/telegram.py:55-61 | with `&` replaced first, the chained replacements equal replacing each character once, so nothing is escaped twice |
| Telegram.EscapeSafe | trendradar/notifiers/telegram.py:55-63 | no `<`, `>` or `"` is left in escaped text |
| Telegram.EscapeKeepsApostrophe | trendradar/notifiers/telegram.py:55-61 | unlike the shared `html_escape`, the apostrophe is left as it is |
| Telegram.EscapeRoundTrip | trendradar/notifiers/telegram.py:55-61 | decoding the entities gives the escaped text back: escaping loses nothing |
| Telegram.EscapeMeans | trendradar/notifiers/telegram.py:55-61 | the notifier's escape (Telegram.Escape) escapes each character on its own, leaves no `<`, `>` or `"`, and loses nothing: unescaping gives the text back |
| Telegram.TitleParts | trendradar/notifiers/telegram.py:49-111 | the escaped "[source] " iff show_source, exactly "🆕 " iff new, the escaped cleaned title in an anchor to the mobile url or else the url (plain without a link), a rank part that is a space and the display whose bracket reads back as "[n]" or "[min - max]", inside `<b>`…`</b>` iff the best rank is within the threshold, " - time" iff a time display is given, and " (N次)" only above 1 |
| Telegram.FormatTitleLayout | trendradar/notifiers/telegram.py:49-111 | `_format_title` (Telegram.FormatTitle) starts with the escaped "[source] " when shown, then "🆕 " when new, then the escaped cleaned title in an anchor to the link (plain without one), and ends with the count suffix, " (n次)" when n is above 1 |
| Telegram.TitleTextIsEscaped | trendradar/notifiers/telegram.py:63-77 | the title and the source name reach the message escaped: decoding them gives the clean text back, and an unlinked title has no `<`, `>` or `"` |
| Telegram.LinkNotEscaped | trendradar/notifiers/telegram.py:66-67 | the link is placed verbatim, unescaped, right after `<a href="` |
| Telegram.AnchorHoldsLink | trendradar/notifiers/telegram.py:67 | the anchor holds the link right after `<a href="` |
| Telegram.Messages | trendradar/notifiers/telegram.py:253-269 | the posted texts are the batches of the rendered content, each behind a "<b>[第 i/n 批次]</b>" header only when there are several; content within the limit is posted unchanged |
| Matcher.FrequencyComponent | trendradar/core/matcher.py:48-49 | the frequency component lies in [0, 100] for a non-negative count and is 100 from ten rounds on |
| Matcher.RankScoreSumBounds | trendradar/core/matcher.py:40-46 | with every rank at least 1, the rank scores sum to between 1 and 10 per rank |
| Matcher.HighRankCountBound | trendradar/core/matcher.py:51-52 | no more ranks are within the threshold than there are ranks |
| Matcher.RankComponentBounds | trendradar/core/matcher.py:40-46 | the rank component, the mean of 11 − min(rank, 10), lies in [1, 10] when every rank is at least 1 |
| Matcher.NewsWeightBounds | trendradar/core/matcher.py:27-60 | `calculate_news_weight` (Matcher.NewsWeight), with ranks of at least 1, a non-negative count and non-negative factors, lies between the rank factor and 10, 100 and 100 times the rank, frequency and hotness factors |
| Matcher.HotnessComponentBounds | trendradar/core/matcher.py:51-54 | the hotness component, 100 × the share of ranks within the threshold, lies in [0, 100] |
| Matcher.NoRanksNoWeight | trendradar/core/matcher.py:34-36 | with no ranks the weight is exactly 0.0, whatever the count and factors |
| Matcher.WeightExample | trendradar/core/matcher.py:27-60 | ranks [1, 3] seen twice, threshold 5 and the default factors 0.6/0.3/0.1 weigh exactly 21.4 |
| Matcher.SomeGroupMatchesMeans | trendradar/core/matcher.py:89-111 | the loop over the groups returns true iff some group passes its required and normal word checks |
| Matcher.MatchesWordGroupsMeans | trendradar/core/matcher.py:78-111 | `matches_word_groups` (Matcher.MatchesWordGroups) holds iff there are no groups, or no filter word occurs in the title and some group has all its required words and, when it has normal words, at least one of them |
| Matcher.EmptyGroupMatchesAll | trendradar/core/matcher.py:93-109 | a group with neither required nor normal words matches every title |
| Matcher.Least | trendradar/core/matcher.py:128-129 | the minimum rank is one of the ranks and no rank is below it |
| Matcher.Greatest | trendradar/core/matcher.py:128-130 | the maximum rank is one of the ranks and no rank is above it |
| Matcher.RankBody | trendradar/core/matcher.py:153-162 | the rank text opens with "[" and reads back as the single rank when the least and greatest agree, else as the pair least, greatest separated by " - " |
| Matcher.SingleRankReadsBack | trendradar/core/matcher.py:154-160 | "[n]" reads back as the rank n, negative ranks included |
| Matcher.RankRangeReadsBack | trendradar/core/matcher.py:156-162 | "[min - max]" reads back as the two ranks |
| Matcher.RankMarkup | trendradar/core/matcher.py:125-162 | no text iff no ranks; otherwise the text is the highlight start, a bracket and the highlight end iff the best rank is within the threshold, else the bare bracket, and the bracket reads back as the least rank alone or as least and greatest of the distinct ranks |
| Matcher.FormatRankDisplay | trendradar/core/matcher.py:114-162 | "" iff the ranks are empty; otherwise the format's highlight markup (`**` for an unknown format) surrounds the bracket iff the best rank is within the threshold, and the bracket reads back as "[min]" when all distinct ranks agree and as "[min - max]" otherwise |
| Matcher.RankMarkupDependsOnRange | trendradar/core/matcher.py:128-130 | only the set of distinct ranks matters: duplicates and order do not change the display |
| Matcher.PlatformNewsMembers | trendradar/core/matcher.py:202-236 | an entry is in one platform's list iff it is the entry of one of the platform's matching titles |
| Matcher.AllNewsMembers | trendradar/core/matcher.py:199-236 | an entry is in the list iff it is the entry of a matching title of a listed platform |
| Matcher.AllNewsWitness | trendradar/core/matcher.py:199-236 | every entry of the list comes from a matching title of a listed platform |
| Matcher.AllNewsComplete | trendradar/core/matcher.py:199-236 | every matching title of a listed platform has its entry in the list |
| Matcher.NewsMembers | trendradar/core/matcher.py:197-236 | the matched list holds exactly the entries of the matching (platform, title) pairs of the results |
| Matcher.NoGroupsMatchAll | trendradar/core/matcher.py:191-195 | with no groups every title of every platform is in the list, whatever the filter words |
| Matcher.CollectPlatform | trendradar/core/matcher.py:200-236 | one platform's matching titles in order, each built from its day record when there is one and otherwise from its own data with count 1, with the source name defaulting to the id |
| Matcher.CountWordFrequency | trendradar/core/matcher.py:165-241 | the result is the stable insertion sort of all matching entries by descending weight: sorted, a permutation of the matches, and with ties in encounter order |
| Reporter.TimeDisplay | trendradar/core/reporter.py:99-108 | no time iff either time is missing; the single time when first = last; otherwise first, "～", last, recoverable piece by piece |
| Reporter.StatTitles | trendradar/core/reporter.py:96-123 | one report record per matched title, in order |
| Reporter.Positive | trendradar/core/reporter.py:92-94 | a group is kept iff it is among the groups and its count is positive |
| Reporter.PositiveConcat | trendradar/core/reporter.py:92-94 | dropping the non-positive groups works piecewise over a concatenation |
| Reporter.ProcessStatsKeepsPositive | trendradar/core/reporter.py:91-132 | groups with a count of zero or less are dropped; the others keep their order, word and count, and all their titles are converted |
| Reporter.NewTitles | trendradar/core/reporter.py:64-80 | one record per new title of the platform, in order, each with count 1, is_new true, no time and the configured threshold |
| Reporter.IncrementalHidesNew | trendradar/core/reporter.py:43-47 | in incremental mode the new-title section is empty and total_new_count is 0 |
| Reporter.FilterNewMembers | trendradar/core/reporter.py:48-57 | a platform is kept iff it has a new title that passes the keyword rule, and then with exactly those titles |
| Reporter.FilterNewAt | trendradar/core/reporter.py:51-57 | the same, for one platform |
| Reporter.FilterNewHas | trendradar/core/reporter.py:51-57 | a platform is kept iff it is listed and has a matching new title |
| Reporter.FilterNewValue | trendradar/core/reporter.py:52-57 | a kept platform keeps exactly its matching titles, in order |
| Reporter.NewSourcesShape | trendradar/core/reporter.py:59-89 | every emitted section has titles and its platform's name (the id when none is known), and every title in it is new, seen once, has no time and carries the threshold |
| Reporter.NewSourcesTitles | trendradar/core/reporter.py:60-89 | a platform's section lists exactly the platform's filtered titles, in their order |
| Reporter.KeptIsListed | trendradar/core/reporter.py:51-89 | a new title that passes the keyword rule is listed under its platform |
| Reporter.SectionLists | trendradar/core/reporter.py:59-89 | every filtered title of a platform is listed in that platform's section |
| Reporter.ListedIsKept | trendradar/core/reporter.py:51-57 | a listed new title passes the keyword rule |
| Reporter.NewTitleShownIffMatches | trendradar/core/reporter.py:47-89 | outside incremental mode and with names known, a new title appears in the report iff it passes `matches_word_groups` |
| Reporter.NewSourceOf | trendradar/core/reporter.py:59-89 | a listed platform with titles has its section |
| Reporter.FilterTitles | trendradar/core/reporter.py:52-55 | the inner loop keeps exactly the titles that pass the rule, in order, with their data |
| Reporter.FilterNewTitles | trendradar/core/reporter.py:48-57 | the first pass builds exactly the filtered platforms of the specification |
| Reporter.BuildNewTitles | trendradar/core/reporter.py:62-80 | one platform's report records, as specified |
| Reporter.TitleCountSnoc | trendradar/core/reporter.py:138-140 | one section more adds its number of titles to the total |
| Reporter.BuildNewSources | trendradar/core/reporter.py:59-89 | the second pass builds exactly the specified sections, and the total is their number of titles |
| Reporter.BuildStatTitles | trendradar/core/reporter.py:96-123 | one group's titles converted, as specified |
| Reporter.BuildStats | trendradar/core/reporter.py:91-132 | the loop over the groups builds exactly the specified positive groups |
| Reporter.PrepareReportData | trendradar/core/reporter.py:22-141 | the report is exactly `ReportOf`: the positive groups, the new-title section, failed ids defaulting to [] and total_new_count equal to the number of listed new titles |
| SnapshotFormat.MarkersShaped | trendradar/core/storage.py:63-66 | both link markers, " [URL:" and " [MOBILE:", start with a space and hold no other space and no "]" |
| SnapshotFormat.ConcatNoOccur | trendradar/core/storage.py:142-152 | a marker found in neither half of a text, and not able to straddle a seam that starts with a space or "]", is not in the whole |
| SnapshotFormat.ClosedNoOccur | trendradar/core/storage.py:146-154 | a link value closed by "]" holds no marker when the value holds none |
| SnapshotFormat.LastMarker | trendradar/core/storage.py:142-154 | the last-occurrence split of `pre + marker + v + "]"` cuts right after `pre` and yields exactly `v` |
| SnapshotFormat.NoMarker | trendradar/core/storage.py:141-154 | without the marker, the text is kept whole and the link is empty |
| SnapshotFormat.UrlSuffixNoMobile | trendradar/core/storage.py:63-66 | the written url part never holds the mobile marker |
| SnapshotFormat.RankPrefix | trendradar/core/storage.py:133-138 | a line "digits. rest" gives the digits' value as the rank and `rest` as the remaining text |
| SnapshotFormat.CutMobile | trendradar/core/storage.py:140-147 | cutting the mobile part off a written line gives back the mobile url and the title with its url part |
| SnapshotFormat.CutUrl | trendradar/core/storage.py:149-154 | cutting the url part off gives back the url and the title |
| SnapshotFormat.LineShape | trendradar/core/storage.py:60-67 | a written line is the rank, ". ", the title, then the url part and the mobile part, each present only for a non-empty link |
| SnapshotFormat.LineUnstripped | trendradar/core/storage.py:60-67 | for a clean non-empty title and a non-negative rank, stripping leaves a written line unchanged |
| SnapshotFormat.LineRoundTrip | trendradar/core/storage.py:126-163 | a written title line reads back as the same title, its rank as the only rank and the same url and mobile url, when no field holds a link marker |
| SnapshotFormat.EmptyTitleLine | trendradar/core/storage.py:60-67 | a title that is empty after cleaning is written "3. " and reads back as the title "3." with the default rank [1], so it does not survive the round trip |
| SnapshotFormat.RankOnlyLine | trendradar/core/storage.py:60-67 | rank 3 with an empty title and no links is written "3. " |
| SnapshotFormat.RankOnlyParse | trendradar/core/storage.py:126-163 | the line "3. " reads back as the title "3." with rank [1] and no links |
| SnapshotFormat.RankOnlyPieces | trendradar/core/storage.py:129-156 | stripping "3. " leaves "3.", which has no ". " rank prefix, no link marker, and is its own cleaned title |
| SnapshotFormat.HeaderRoundTrip | trendradar/core/storage.py:35-39 | a header read back gives the id and the name that was written, or the id as its own name when no distinct non-empty name was written |
| SnapshotFormat.HeaderStripped | trendradar/core/storage.py:113-117 | stripping leaves a header of id, separator and name unchanged when id and name are stripped and non-empty |
| SnapshotFormat.FirstSeparator | trendradar/core/storage.py:114-115 | the first separator in a header of id, separator and name is right after the id, when the id holds no separator and does not end in a space and a bar |
| SnapshotFormat.EntriesTitles | trendradar/core/storage.py:159-163 | the titles a section's lines give, each mapped to its rank and links, with a later line winning |
| SnapshotFormat.LinesRoundTrip | trendradar/core/storage.py:126-163 | a section's written lines read back give every title with its written rank and links, a repeated title keeping its last line |
| SnapshotFormat.OneLineSectionSkipped | trendradar/core/storage.py:108-110 | a section of one line, such as a platform with no titles, is skipped when read |
| SnapshotFormat.FailedSectionSkipped | trendradar/core/storage.py:105-106 | the section listing failed ids is skipped when read |
| SnapshotFormat.NoTitlesSection | trendradar/core/storage.py:34-69 | a platform with no titles is written as its header followed by a blank line |
| SnapshotFormat.LinesTextJoined | trendradar/core/storage.py:60-67 | the title lines, each followed by a line break, are the lines joined by line breaks with one break after the last |
| SnapshotFormat.SectionParses | trendradar/core/storage.py:100-163 | a header line and writable lines, followed by a blank line, parse as the header's id and name and the titles of those lines |
| SnapshotFormat.SectionRoundTrip | trendradar/core/storage.py:33-69 | a platform's written section with at least one title reads back as its id, the name its header carries and the titles of its written lines, for an id and lines the format can hold |
| SnapshotFile.SectionsSplit | trendradar/core/storage.py:33-69 | split at blank lines, the written sections of the platforms give one piece per platform, in order, followed by the split of what comes after them |
| SnapshotFile.FailedPiece | trendradar/core/storage.py:71-75 | the failed-request list is a single blank-line piece and the reader skips it |
| SnapshotFile.PiecesParse | trendradar/core/storage.py:100-163 | reading the platforms' pieces one by one gives the titles and names WrittenSections describes |
| SnapshotFile.SnapshotRoundTrip | trendradar/core/storage.py:17-163 | reading a whole written file gives back exactly WrittenSections: the platforms that had titles, with the titles of their written lines and the names their headers carry |
| SnapshotFile.WrittenSectionsHold | trendradar/core/storage.py:33-69 | the read-back dictionary is well formed, holds exactly the platforms with titles, names exactly those, and gives each the titles of its written lines and the name its header carries |
| SnapshotFile.WrittenSectionsKeys | trendradar/core/storage.py:33-69 | the read-back platforms are exactly the written platforms with titles, in both the titles and the names |
| SnapshotFile.WrittenSectionsValues | trendradar/core/storage.py:33-69 | each read-back platform carries the titles of its written lines and the name its header carries |
| SnapshotFile.WrittenSectionsOrder | trendradar/core/storage.py:33-69 | with each platform written once, the read-back platforms keep the order they were written in, the platforms without titles left out |
| SnapshotFormat.EntriesTitlesKeys | trendradar/core/storage.py:159-163 | the titles read back are exactly the titles of the section's lines |
| SnapshotFormat.EntriesTitlesLastWins | trendradar/core/storage.py:159-163 | a title carries the rank and links of the last line that holds it |
| Storage.EntriesOf | trendradar/core/storage.py:42-55 | one entry per title of the platform, as many as there are titles; entry i is the i-th title in dictionary order, cleaned, with its first rank (1 when it has none) and its links |
| Storage.SectionOrder | trendradar/core/storage.py:42-57 | a platform's titles are written sorted by first rank (1 when there is none), as a permutation of the collected entries in which titles of equal rank keep their dictionary order |
| Storage.CollectEntries | trendradar/core/storage.py:42-55 | the loop collects exactly the entries of the titles, in dictionary order |
| Storage.SortedTitles | trendradar/core/storage.py:42-57 | the collected entries, stably sorted by first rank |
| Storage.FormatLine | trendradar/core/storage.py:60-67 | the line of one title: rank, ". ", title, then the url and mobile parts for non-empty links |
| Storage.WriteLines | trendradar/core/storage.py:59-67 | the loop writes each sorted entry's line, each ended by a line break |
| Storage.WriteSection | trendradar/core/storage.py:34-69 | a platform's section is its header, its sorted title lines and a blank line |
| Storage.WriteFailed | trendradar/core/storage.py:71-75 | nothing when no request failed, else the failure marker and one id per line |
| Storage.WriteSections | trendradar/core/storage.py:33-69 | the loop over the platforms writes their sections in dictionary order |
| Storage.SectionsTextSnoc | trendradar/core/storage.py:33-69 | one platform more appends exactly its section |
| Storage.SaveTitles | trendradar/core/storage.py:17-82 | the text written is every platform's section in order followed by the failed-request list |
| Storage.ParseTitleLine | trendradar/core/storage.py:126-163 | a line gives no title iff it is blank; otherwise the title is clean and carries exactly one rank, read from an ASCII-digit prefix before ". " or else 1 |
| Storage.ParseLines | trendradar/core/storage.py:126-163 | the titles of a section's lines form a well-formed dictionary |
| Storage.ParseSection | trendradar/core/storage.py:104-163 | a parsed section's titles form a well-formed dictionary (what a written section reads back as is stated by SnapshotFormat.SectionRoundTrip) |
| Storage.ParseSections | trendradar/core/storage.py:104-163 | the titles by platform form a well-formed dictionary of dictionaries (what a written file reads back as is stated by SnapshotFile.SnapshotRoundTrip) |
| Storage.ParseSectionLines | trendradar/core/storage.py:126-163 | the loop over the title lines builds exactly the specified titles |
| Storage.ParseLinesStep | trendradar/core/storage.py:126-163 | one line more writes its title, when it has one, over the titles so far and changes nothing else |
| Storage.ParseSectionText | trendradar/core/storage.py:104-163 | one section parsed as specified: skipped when blank, a failure list or a single line, else header then titles |
| Storage.ParseFileTitles | trendradar/core/storage.py:85-169 | the file's text parsed into titles by id and names by id, exactly as specified, the titles well-formed |
| Storage.FilterRound | trendradar/core/storage.py:211-223 | without a platform list both titles and names are returned unchanged; with one, a platform keeps its titles exactly when it is listed, and its name exactly when it is listed and has titles, with titles and names unchanged |
| Storage.RoundData | trendradar/core/storage.py:209-223 | one snapshot parsed; without a list exactly what was parsed; with one, exactly the listed parsed platforms keep their titles, and a name survives exactly when its platform is listed and has titles, all values as parsed |
| Storage.MergeRoundInto | trendradar/core/storage.py:227-231 | the platforms of one snapshot are merged into the day's data one by one, in order |
| Storage.FilterPlatforms | trendradar/core/storage.py:211-223 | the filter loop keeps exactly the specified platforms and names |
| Storage.ReadRound | trendradar/core/storage.py:206-231 | one snapshot parsed, filtered and merged, its names written over the earlier ones |
| Storage.ReadAllStep | trendradar/core/storage.py:206-231 | one snapshot more merges that snapshot into the day so far |
| Storage.ReadAllTodayTitles | trendradar/core/storage.py:176-236 | the day's snapshots, in file-name order, merged exactly as specified, with every title record consistent with the results |
| Storage.MergeRoundPlatforms | trendradar/core/storage.py:227-231 | merging a snapshot keeps the day's data consistent and adds exactly that snapshot's platforms |
| Storage.MergeSourcePlatforms | trendradar/core/storage.py:228-231 | merging one platform keeps the data consistent and adds exactly that platform |
| Storage.ReadAllListed | trendradar/core/storage.py:211-231 | the day's data stays consistent, and with a platform list only listed platforms appear, in the data and in the names |
| Storage.RoundsNames | trendradar/core/storage.py:209-225 | the names each snapshot contributes, one map per snapshot, in order |
| Storage.ReadAllNames | trendradar/core/storage.py:225 | the final names are the snapshots' names laid over each other in order |
| Storage.ReadAllNamesStep | trendradar/core/storage.py:225 | one snapshot more lays its names over the earlier ones |
| Storage.OverlayLastWins | trendradar/core/storage.py:225 | a name is known iff some snapshot gives it, and then it is the one of the last snapshot that gives it |
| Storage.ReadAllNameFromLastRound | trendradar/core/storage.py:176-236 | the day's name of a platform is the one the last snapshot naming it gives, and a platform is named iff some snapshot names it |
| Storage.ReadAllPlatforms | trendradar/core/storage.py:176-236 | a platform is in the day's data exactly when some round, cut down to the platform list, holds it |
| Storage.ReadAllPlatformsStep | trendradar/core/storage.py:209-231 | reading one more round adds exactly the platforms that round keeps |
| Sorting.WhereConcat | trendradar/core/storage.py:57 | the elements of one key in a concatenation are those of each part, in order |
| Sorting.WhereAbove | trendradar/core/storage.py:57 | a sorted sequence whose first key is above `w` has no element of key `w` |
| Sorting.InsertPermutes | trendradar/core/storage.py:57 | inserting one element adds exactly that element |
| Sorting.InsertSorted | trendradar/core/storage.py:57 | inserting into a sorted sequence keeps it sorted |
| Sorting.InsertStable | trendradar/core/storage.py:57 | an inserted element goes after every element of equal key |
| Sorting.InsertionSortFacts | trendradar/core/storage.py:57 | the stable sort Python's `list.sort` performs: the result is sorted by the key, a permutation of the input, and elements of equal key keep their input order |
| Sorting.SortedTail | trendradar/core/storage.py:57 | the tail of a sorted sequence is sorted |
| Sorting.InsertPast | trendradar/core/storage.py:57 | insertion passes an element whose key is not above the inserted one |
| Sorting.InsertStops | trendradar/core/storage.py:57 | insertion stops before the first element of larger key |
| Sorting.InsertInto | trendradar/core/storage.py:57 | the insertion loop places the element after every element of key not above it |
| Sorting.SortBy | trendradar/core/matcher.py:239 | the sort used for `list.sort` with a key: sorted, a permutation of the input, stable on equal keys |
| Text.StripLeftShape | trendradar/core/storage.py:129 | `lstrip` removes exactly the leading run of whitespace |
| Text.StripRightShape | trendradar/core/storage.py:129 | `rstrip` removes exactly the trailing run of whitespace |
| Text.StripIdempotent | trendradar/core/storage.py:129 | `strip()` leaves no whitespace at either end, so stripping twice is stripping once |
| Text.Lower | trendradar/core/matcher.py:82 | `lower()` keeps the length and lowers each character on its own |
| Text.Find | trendradar/core/storage.py:134-137 | the first occurrence of a separator, found iff the separator occurs |
| Text.RFind | trendradar/core/storage.py:142-154 | the last occurrence of a marker, found iff the marker occurs |
| Text.WordsAreWords | trendradar/utils/validator.py:305 | `split()` with no argument gives non-empty words without whitespace |
| Text.WordsOfJoin | trendradar/utils/validator.py:305 | joining words with single spaces and splitting again gives the words back |
| Text.NatToStringRoundTrip | trendradar/core/storage.py:61-138 | a rank written with `str` reads back with `int` as the same number |
| Text.Utf8LenConcat | trendradar/notifiers/telegram.py:211-222 | the UTF-8 byte length of a concatenation is the sum of the parts' lengths |
| Text.IntToStringRoundTrip | trendradar/core/matcher.py:155-162 | the decimal text `str` writes for any integer is ASCII digits after an optional "-", and reading it back gives the integer |
| Text.ReadRatioOf | trendradar/notifiers/telegram.py:268 | "i/n" followed by an ending reads back as i, n and the text after the ending |
| Text.SplitJoinLines | trendradar/core/storage.py:102-108 | lines without a line break, joined by line breaks, split back into the same lines |
| TimeUtils.FormatTimeDisplay | trendradar/utils/time_utils.py:38-50 | equal times show as the one time; otherwise the display starts with the first time and ends with the last |
| TimeUtils.TimeDisplayRecovers | trendradar/utils/time_utils.py:38-50 | for distinct times, splitting the display at the first " - " gives back both times, when the first time holds no " - " and does not end in " -" |
| TimeUtils.Minutes | trendradar/utils/time_utils.py:53-65 | an "HH:MM" time of day is a minute of the day, between 0 and 1439 |
| TimeUtils.LexLeUnfold | trendradar/utils/time_utils.py:65 | Python's string comparison decides on the first differing character |
| TimeUtils.LexLeIsTimeOrder | trendradar/utils/time_utils.py:53-65 | on "HH:MM" times, the string comparison `is_in_time_range` uses is the order of the times of day |
| TimeUtils.IsInTimeRangeMeans | trendradar/utils/time_utils.py:53-65 | `is_in_time_range` (TimeUtils.IsInTimeRange) holds on "HH:MM" times iff the current time of day lies between the start and the end, both included |
| TimeUtils.NoonUnique | trendradar/utils/time_utils.py:53-65 | "12:00" is the only valid time at minute 720 |
| TimeUtils.WindowsCoverTheDay | trendradar/utils/time_utils.py:53-65 | every valid time lies in "00:00"-"12:00" or "12:00"-"23:59", and in both iff it is "12:00" |
| Validator.MissingKeysOf | trendradar/utils/validator.py:52-55 | a key is reported missing iff it is required and absent from the configuration |
| Validator.CheckRequiredKeys | trendradar/utils/validator.py:43-61 | the loop over the required keys fails exactly as specified, listing the missing keys in the order they are required |
| Validator.KeysErrorIff | trendradar/utils/validator.py:43-61 | the required-keys check passes iff every required key is present, and otherwise reports all missing keys |
| Validator.WeightNamesError | trendradar/utils/validator.py:80-99 | the per-weight checks pass iff every named weight is present, a number and within [0, 1] |
| Validator.WeightsErrorIff | trendradar/utils/validator.py:63-114 | the weights pass iff they are a non-empty container holding all three weights, each a number in [0, 1], summing to 1 within 0.01 |
| Validator.Seen | trendradar/utils/validator.py:151 | an id counts as seen iff it equals, under Python's equality, one of the ids before it |
| Validator.IdsOfAll | trendradar/utils/validator.py:150-155 | when every entry has an id, the ids collected are exactly the entries' ids, one per entry |
| Validator.PlatformItemsPass | trendradar/utils/validator.py:139-155 | entries that pass are dicts with hashable ids, pairwise distinct |
| Validator.PassHasIds | trendradar/utils/validator.py:140-150 | every entry of a list that passes is a dict with a hashable id |
| Validator.PassDistinct | trendradar/utils/validator.py:150-155 | no two entries of a list that passes have equal ids |
| Validator.PassDistinctAt | trendradar/utils/validator.py:150-155 | two entries of a list that passes have different ids, because the later one's check saw the earlier id |
| Validator.PlatformItemsAccepted | trendradar/utils/validator.py:139-155 | dicts with hashable, pairwise distinct ids pass |
| Validator.PlatformItemsErrorIff | trendradar/utils/validator.py:139-155 | the entries pass iff each is a dict with a hashable id and no two ids are equal |
| Validator.PlatformItemsErrorSticks | trendradar/utils/validator.py:139-155 | once the entries up to some point fail, the whole list fails with the same error |
| Validator.PlatformsErrorIff | trendradar/utils/validator.py:116-155 | the platforms pass iff they are a non-empty list of dicts with hashable, pairwise distinct ids |
| Validator.PlatformStep | trendradar/utils/validator.py:139-155 | after entries that passed, one entry more is decided by its own check against the ids so far, and adds its id |
| Validator.CheckPlatform | trendradar/utils/validator.py:140-155 | one entry's check: not a dict, no id, an unhashable or repeated id fail with the entry's 1-based number |
| Validator.ValidatePlatforms | trendradar/utils/validator.py:116-155 | the loop that grows the set of seen ids fails exactly as specified |
| Validator.ModeError | trendradar/utils/validator.py:157-177 | the report mode passes iff it is one of "daily", "incremental" and "current" |
| Validator.WebhooksError | trendradar/utils/validator.py:179-200 | the webhooks pass iff each setting is absent, empty or starts with "http://" or "https://" |
| Validator.ValidateIff | trendradar/utils/validator.py:24-39 | `validate` passes iff the keys, weights, platforms, mode and webhooks all pass their checks |
| Validator.MissingKeysFirst | trendradar/utils/validator.py:24-61 | with a required key missing, `validate` reports all missing keys, whatever else is wrong |
| Validator.WeightsBeforeTheRest | trendradar/utils/validator.py:24-39 | with the keys present, the weights' error is reported before any later check runs |
| Validator.Validate | trendradar/utils/validator.py:24-39 | the checks run in their fixed order and the first failure is reported; none iff the configuration is accepted |
| Validator.TakeWhile | trendradar/utils/validator.py:252-258 | the longest prefix whose characters all pass the test |
| Validator.SchemeLength | trendradar/utils/validator.py:253 | a case-insensitive "http://" or "https://" prefix, when present, lies within the URL |
| Validator.ValidUrlHasNoSpace | trendradar/utils/validator.py:239-262 | an accepted URL holds no whitespace, except possibly one final line break that `$` lets through |
| Validator.ValidUrlHasScheme | trendradar/utils/validator.py:239-262 | `_is_valid_url` (Validator.IsValidUrl) accepts only URLs that start with "http://" or "https://" in any case |
| Validator.AcceptedByParts | trendradar/utils/validator.py:252-262 | a URL whose scheme, host and port-and-path each pass is accepted |
| Validator.HttpsScheme | trendradar/utils/validator.py:253 | a URL whose first eight characters read "https://" in any case has a scheme of length 8 |
| Validator.HttpScheme | trendradar/utils/validator.py:253 | a URL starting "http://" in any case has a scheme of length 7 |
| Validator.LocalhostUrlAccepted | trendradar/utils/validator.py:252-262 | "HTTP://localhost:8080" is accepted: the match ignores case and allows a port |
| Validator.PortExample | trendradar/utils/validator.py:257-258 | ":8080" is a valid port with an empty path |
| Validator.FtpUrlRefused | trendradar/utils/validator.py:252-262 | "ftp://example.com" is refused |
| Validator.SpacedUrlRefused | trendradar/utils/validator.py:252-262 | "http://example.com/a b" is refused |
| Validator.ValidUrlSpaceRefused | trendradar/utils/validator.py:239-262 | a URL with whitespace before its last character is refused |
| Validator.ItemVerdict | trendradar/utils/validator.py:209-237 | an item is accepted iff title and url are present and truthy, the title is at most 500 long and the url a string that passes `_is_valid_url`; it raises iff the title has no length or, with a short title, the url is not a string |
| Validator.JoinClean | trendradar/utils/validator.py:305 | words joined by single spaces have no leading, trailing or doubled space |
| Validator.NormaliseSpacesMeans | trendradar/utils/validator.py:305 | `" ".join(title.split())` (Validator.NormaliseSpaces) keeps exactly the words, leaves a clean single-spaced text, and is idempotent |
| Validator.NormaliseSpacesIsCleanTitle | trendradar/utils/validator.py:305 | the item cleaner's `" ".join(title.split())` (Validator.NormaliseSpaces) gives the same text as `clean_title` |
| Validator.Shorten | trendradar/utils/validator.py:306-308 | a title longer than 200 characters becomes its first 197 and "...", exactly 200 long; a shorter one is kept |
| Validator.CleanNewsItem | trendradar/utils/validator.py:290-315 | cleaning keeps the item's keys and every other field, collapses and shortens a string title and strips a string url |
| Validator.CleanedTitle | trendradar/utils/validator.py:302-309 | a cleaned string title is at most 200 long, and when short enough keeps exactly the original's words, single-spaced |
| Validator.SomeRaisesMeans | trendradar/utils/validator.py:264-288 | `validate_and_clean` raises iff some item's check raises |
| Validator.CountsAddUp | trendradar/utils/validator.py:273-287 | without an item that raises, the kept and the rejected items account for every item |
| Validator.CleanEach | trendradar/utils/validator.py:279 | each item cleaned, in order |
| Validator.CleanedIsFilterThenClean | trendradar/utils/validator.py:273-288 | the kept items are the accepted items, in input order, each cleaned |
| Validator.ValidateAndClean | trendradar/utils/validator.py:264-288 | the loop raises iff some item raises; otherwise it returns the cleaned accepted items in order and counts the rejected ones |
| Validator.IntLiteralOfInt | trendradar/utils/validator.py:366-367 | every integer written by `str` is accepted by `int` |
| Validator.LineKindOf | trendradar/utils/validator.py:346-374 | a line is skipped iff it is blank or a comment once stripped, and it can only be bad when it holds ":" |
| Validator.ScanSucceedsIff | trendradar/utils/validator.py:345-374 | the scan over the lines succeeds iff no line is bad |
| Validator.ScanCounts | trendradar/utils/validator.py:345-374 | a successful scan counts exactly the lines that are neither blank nor comments |
| Validator.ScanFailsAtFirstBad | trendradar/utils/validator.py:345-374 | a failed scan reports the error of a bad line that has no bad line before it |
| Validator.ScanLinesMeans | trendradar/utils/validator.py:345-374 | the scan succeeds iff no line is bad, then counts the counted lines, and otherwise reports the first bad line |
| Validator.CheckWordsFileIff | trendradar/utils/validator.py:336-382 | the file passes iff it has lines, none bad and at least one counted, and the count is the number of counted lines |
| Validator.ValidateFrequencyWordsFile | trendradar/utils/validator.py:318-385 | the check of the file's lines: empty file, the first bad line, or no valid line are the errors, else the count |
| Validator.CountValidLines | trendradar/utils/validator.py:345-374 | the loop that counts valid lines stops at the first bad line, as specified |
| Validator.ClassifyLine | trendradar/utils/validator.py:347-374 | one line: skipped when blank or a comment, bad when "keyword:weight" has an empty keyword or a non-integer weight, else counted |
| FileUtils.ReplaceChar | trendradar/utils/file_utils.py:50 | `str.replace` of one character: the character is gone when the replacement does not hold it, and a text without it is unchanged |
| FileUtils.ReplaceCharConcat | trendradar/utils/file_utils.py:50 | replacing works piecewise over a concatenation |
| FileUtils.CollapseSpaces | trendradar/utils/file_utils.py:53 | `re.sub(r"\s+", " ", s)` leaves no whitespace but single spaces, is empty iff its input is, and starts with whitespace iff its input does |
| FileUtils.NonSpaceStrip | trendradar/utils/file_utils.py:56 | stripping removes only whitespace |
| FileUtils.NonSpaceCollapse | trendradar/utils/file_utils.py:53 | collapsing whitespace keeps every other character, in order |
| FileUtils.NonSpaceReplace | trendradar/utils/file_utils.py:50 | replacing a line break by a space keeps every other character, in order |
| FileUtils.CleanTitleKeepsText | trendradar/utils/file_utils.py:37-58 | `clean_title` keeps every non-whitespace character of the title, in order |
| FileUtils.NoLineBreaks | trendradar/utils/file_utils.py:50-53 | a single-spaced text holds no line break |
| FileUtils.CleanTitleIsClean | trendradar/utils/file_utils.py:37-58 | a cleaned title has no line break, no surrounding whitespace and no whitespace other than single spaces |
| FileUtils.StripSingleSpaced | trendradar/utils/file_utils.py:53-56 | stripping a single-spaced text leaves a clean text without line breaks |
| FileUtils.CollapseFixes | trendradar/utils/file_utils.py:53 | collapsing a single-spaced text changes nothing |
| FileUtils.CleanTitleFixes | trendradar/utils/file_utils.py:37-58 | a clean title is its own `clean_title` |
| FileUtils.CleanTitleIdempotent | trendradar/utils/file_utils.py:37-58 | cleaning a title twice is cleaning it once |
| FileUtils.CleanTitleKeepsWords | trendradar/utils/file_utils.py:37-58 | `clean_title` (FileUtils.CleanTitle) keeps exactly the title's words, in order: replacing line breaks, collapsing and stripping only change the whitespace between them |
| FileUtils.CleanTitleIsJoin | trendradar/utils/file_utils.py:37-58 | `clean_title` (FileUtils.CleanTitle) gives exactly the title's words joined by single spaces: each run of whitespace between two words becomes one space and none is left at the ends |
| FileUtils.HtmlEscapeConcat | trendradar/utils/file_utils.py:82-100 | `html_escape` works piecewise over a concatenation |
| FileUtils.HtmlEscapeOne | trendradar/utils/file_utils.py:94-100 | the chain of replacements turns one character into its own entity, or leaves it |
| FileUtils.HtmlEscapeIsPerChar | trendradar/utils/file_utils.py:82-100 | the five chained replacements escape each character on its own, "&" first so no entity is escaped twice |
| FileUtils.EscapeCharSafe | trendradar/utils/file_utils.py:94-100 | no escaped character holds "<", ">", a double or a single quote |
| FileUtils.HtmlEscapeSafe | trendradar/utils/file_utils.py:82-100 | escaped text holds no "<", ">", double or single quote |
| FileUtils.HtmlEscapeIdentity | trendradar/utils/file_utils.py:82-100 | text without the five special characters is left unchanged |
| FileUtils.UnescapeEntity | trendradar/utils/file_utils.py:94-100 | an entity the escape writes is read back as its one character |
| FileUtils.UnescapeOne | trendradar/utils/file_utils.py:94-100 | one escaped character followed by any text reads back as the character |
| FileUtils.UnescapePlain | trendradar/utils/file_utils.py:94-100 | a character other than "&" reads back as itself |
| FileUtils.HtmlEscapeRoundTrip | trendradar/utils/file_utils.py:82-100 | unescaping escaped text gives the text back |
| FileUtils.HtmlEscapeMeans | trendradar/utils/file_utils.py:82-100 | `html_escape` (FileUtils.HtmlEscape) escapes each character on its own into its entity, leaves no "<", ">", double or single quote, and loses nothing: unescaping gives the text back |

## Left out

- `trendradar/core/fetcher.py` is not part of this model: it is an HTTP client whose point is concurrency, retries and random back-off.
- Filesystem access: listing the day's directory, opening and writing snapshot and report files, `get_output_path` and `ensure_directory_exists`. Snapshots are given as a sequence of (file stem, text) pairs in file-name order, `save_titles_to_file` returns the text it would write, and `validate_frequency_words_file` receives the file's lines (a missing file and a `UnicodeDecodeError` are not modelled).
- The wall clock (`get_beijing_time`, `format_date_folder`, `format_time_filename`): the round label and the current "HH:MM" are parameters.
- `load_config` and `_build_config_dict`: YAML parsing and environment variables; the keyword groups, filter words, rank threshold and weights are passed in.
- The notifiers' `send` paths (`requests.post`, response handling, retries), `build_payload`, `BaseNotifier`'s proxy and header setup, and the HTML reports (`render_html_content`, `_render_simple_html`).
- The rest of the notifiers' `render_content` bodies (separators, footers, the order in which sections are concatenated): only the title line, the group heading with its heat marker and count colour, the opening notice, the new-title copy and the batch header are modelled.
- Floating point: the weights, the weight sum and the hotness share are exact reals; IEEE rounding is not reproduced.
- Text.Lower: lowers ASCII letters only; Python's Unicode `lower()` also maps other scripts.
- Storage.ParseTitleLine: a rank prefix is read only from the ASCII digits "0" to "9". Python's `str.isdigit` also accepts other decimal digits (such as "٣" or "３"), which `int` converts, and digits such as "²", on which `int` raises and the line is skipped. The model keeps such a prefix as part of the title.
- Validator.ClassifyLine: a weight passes only as an optional sign and ASCII digit groups joined by single underscores (`IsIntLiteral`). Python's `int` also accepts other Unicode decimal digits, so a weight such as "３" is counted valid by the code and reported bad by the model.
- Validator.AcceptedByParts: the URL pattern is checked on ASCII only. In Python, `\d` matches every Unicode decimal digit, and under `re.IGNORECASE` the class `[A-Z]` also matches "ı", "ſ", "İ" and the Kelvin sign. Hosts and ports that use them pass in the code and fail in the model.
- Validator.CleanNewsItem: a title or url that is not a string is left unchanged. The code stores `" ".join(str(title).split())` (shortened) and `str(url).strip()`, but Python's `str` of numbers, lists, dicts and `None` is not modelled.
- Storage.SaveTitles: every title's info is a dict of ranks and links. The code's other branch is not modelled: for a non-dict info it takes a list as the ranks (anything else as no ranks) and writes no links.
- Aliasing in `process_source_data`: the caller's `title_data` dict is stored in `all_results` and later rewritten in place; the model stores values, so later merges never change a dict the caller still holds.
- `list.sort` in place on `sorted_titles` and `matched_news` is modelled on sequences, as a stable insertion sort.
- Log messages and the wording of `ConfigError` and its suggestions: the model keeps which check failed and its data (missing keys, weight name, entry number, line number), not the text.

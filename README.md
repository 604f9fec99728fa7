# tiktok-trends: crawl, count and rank hashtags

The program crawls pages of a TikTok hashtag search. It counts how often each
co-occurring hashtag name appears. Then it prints two things: how many distinct
names are on a fixed noise list, and the 32 most frequent names that are not.
This project models the sequential core of that script (`main.ts`) in Dafny and
proves what each step promises.

- `types.dfy` (`Types`): pages (`HashtagR`), items, hashtags, and the Either
  result of a fetch.
- `crawl.dfy` (`Crawl`): `range`, and `fetchHashtagPages` as a loop over the
  page indices. The loop calls an abstract page fetch, collects the payloads in
  index order and stops at the first error. `Traverse` and `Attempted` are its
  specification: what the crawl returns and which fetches it starts.
- `frequency.dfy` (`Frequency`): flattening pages into items and items into
  `textExtra` hashtags. The counting `reduce` is a loop over a `map<string, nat>`
  accumulator, specified by `Frequencies`. Occurrences are counted by `Count`.
- `ranking.dfy` (`Ranking`): `Object.entries` as a method that enumerates the
  map in an unspecified order. Also the noise filters, `orderPairs`, the sort
  (stable, by count descending), `slice(0, 32)` and `filteredTagsCount`.
- `pipeline.dfy` (`Pipeline`): the whole run, crawl to report, and the
  two-page end-to-end scenario.

The page fetch is a parameter `fetch: int -> Result<HashtagR>`. It stands for
`fetchHashtagPage("15269703", String(page))`, including the network call and
the JSON decoding. The noise list is a parameter `noise: set<string>`. The run
uses 30 as its page count, so it requests pages 0 to 30 (31 pages).

Two points follow from the code:
- `range(0, pageCount)` is inclusive at both ends (main.ts:78-83, 91), so a
  crawl with page count `n` requests `n + 1` pages, 0..n.
- Equal counts keep their entry order: the sort with `orderPairs` is stable and
  has no secondary key (main.ts:119-122, 264). The proved ranking properties
  do not depend on that order.

## Model

| member | source | states |
|---|---|---|
| `Crawl.Range` | main.ts:78-83 | `range(min, max)` has `max - min + 1` elements and element `i` is `min + i`; a negative length is a caller error |
| `Crawl.RangeMembers` | main.ts:78-83 | the range is strictly ascending and contains exactly the integers from `min` to `max` inclusive |
| `Crawl.CrawlIndices` | main.ts:87-96 | a crawl with page count `n` requests pages `0..n`, which is `n + 1` pages; the run's 30 gives 31 pages |
| `Crawl.Traverse` | main.ts:86-92 | the sequential traverse of `traverseTE`: fetch front to back, collect in order, stop at the first error; a success has one payload per index and an error is the error of the first failing index, every index before it having succeeded (semantics assumed as under "Left out", Crawl.Traverse) |
| `Crawl.Attempted` | main.ts:86-92 | the indices whose fetch starts under the sequential traverse form a prefix of the index list, empty only when the list is empty |
| `Crawl.FetchHashtagPages` | main.ts:86-94 | the sequential loop returns exactly the sequential traverse of the fetch over `range(0, pageCount)`, and starts fetches for exactly the indices up to the first failure |
| `Crawl.TraverseSucceeds` | main.ts:86-94 | the crawl succeeds if and only if every page fetch succeeds; it then has one payload per index, in index order, and every index was fetched |
| `Crawl.TraverseFailsAtFirstError` | main.ts:86-94 | if the first failing index is at position k, the crawl returns that fetch's error (no partial list) and no index after k is fetched |
| `Frequency.AllItems` | main.ts:106-107 | mapping pages to `itemList` and flattening yields exactly the items of the pages: every item of every page is in it and nothing else |
| `Frequency.AllTags` | main.ts:108-109 | mapping items to `textExtra` and flattening yields exactly the hashtags of the items: every hashtag of every item is in it and nothing else |
| `Frequency.Lookup` | main.ts:111 | the accumulator lookup that defaults to 0 gives the stored count for a seen name and 0 for a name not seen yet |
| `Frequency.Count` | main.ts:110-114 | the occurrence count of a name is at most the number of hashtags, and it is zero exactly when the name is not observed |
| `Frequency.CountNames` | main.ts:110-114 | the `reduce` loop over the flattened hashtags yields a map whose keys are exactly the observed names, each mapped to its number of occurrences |
| `Frequency.Aggregate` | main.ts:104-115 | flattening then folding gives the frequency map of the pages: exactly the observed names as keys, each count equal to the number of hashtags with that name and at least 1 |
| `Frequency.CountAppend` | main.ts:110-114 | counting over a concatenation adds the counts of the two parts |
| `Frequency.AllItemsAppend` | main.ts:106-107 | flattening pages into items distributes over concatenation of page lists |
| `Frequency.AllTagsAppend` | main.ts:108-109 | flattening items into hashtags distributes over concatenation of item lists |
| `Frequency.HashtagsAppend` | main.ts:106-109 | the hashtags of `a + b` are those of `a` followed by those of `b` |
| `Frequency.FrequenciesKeys` | main.ts:110-114 | the frequency map's key set is the set of observed names and every stored count is at least 1 |
| `Frequency.FrequenciesEmpty` | main.ts:110-114 | no pages, or pages without hashtags, give the empty map |
| `Frequency.FrequenciesAdditive` | main.ts:110-114 | the count of a name over pages `a + b` is its count over `a` plus its count over `b`, an absent name counting 0 |
| `Frequency.ItemOccurrencesFlat` | main.ts:108-109 | counting over the flattened hashtags of some items equals summing per-item counts |
| `Frequency.FrequenciesCountOccurrences` | main.ts:104-115 | a name's stored count equals its occurrences summed over every `textExtra` list of every item of every page, repeats inside one item included |
| `Frequency.TwoItemsOneTagEach` | main.ts:110-114 | two items that each tag "foo" once give `{"foo": 2}` |
| `Frequency.OneItemTwoTags` | main.ts:110-114 | one item that tags "foo" twice gives `{"foo": 2}`: occurrences count, not items |
| `Ranking.ObjectEntries` | main.ts:262 | `Object.entries` lists every key of the map once with its value, and nothing else |
| `Ranking.OrderPairs` | main.ts:119-122 | the comparator is negative exactly when the first pair has the higher count, zero exactly on equal counts, positive otherwise |
| `Ranking.FilterNoise` | main.ts:263 | the filter keeps exactly the entries whose name's noise membership is the wanted one, and never grows the list |
| `Ranking.FilterNoiseMultiset` | main.ts:251 | the filter keeps every wanted entry as many times as it occurs and drops every other entry |
| `Ranking.FilteredTagsCount` | main.ts:250-252 | filter then length is at most the number of entries, and is 0 exactly when no entry's name is on the noise list |
| `Ranking.FilteredTagsCountIsNoiseKeys` | main.ts:245-253 | `filteredTagsCount` is the number of distinct map keys on the noise list, not their total occurrences |
| `Ranking.Insert` | main.ts:264 | one insertion step of the sort adds the entry and keeps all others (as a multiset) |
| `Ranking.SortByCount` | main.ts:264 | sorting the copy is a permutation of the filtered entries |
| `Ranking.InsertMembers` | main.ts:264 | an insertion step holds the inserted entry and the entries it was given, and nothing else |
| `Ranking.InsertNonIncreasing` | main.ts:119-122 | inserting by `orderPairs` into a list with non-increasing counts keeps it non-increasing |
| `Ranking.SortByCountNonIncreasing` | main.ts:264 | the sorted list has non-increasing counts |
| `Ranking.SortByCountMembers` | main.ts:264 | the sorted list has the same length and the same entries as its input |
| `Ranking.SortByCountDistinct` | main.ts:264 | sorting a list without repeated names yields a list without repeated names |
| `Ranking.FilterNoiseDistinct` | main.ts:263 | filtering a list without repeated names yields a list without repeated names |
| `Ranking.DistinctLength` | main.ts:250-252 | a list of entries without repeated names has as many entries as distinct names |
| `Ranking.Rank` | main.ts:262-265 | filter out noise, sort by count descending, slice to 32: at most 32 entries, none more than were given, each an input entry whose name is not noise |
| `Ranking.RankEntries` | main.ts:257-265 | the ranked list has no noise name and no repeated name, every pair is taken unchanged from the map, and its length is `min(32, non-noise keys)` |
| `Ranking.RankOrdered` | main.ts:257-265 | the ranked counts are non-increasing, and any non-noise key left out means the list is full and that key's count is at most the last entry's |
| `Ranking.RankExample` | main.ts:245-265 | `{"foo": 5, "bar": 5, "baz": 1}` with noise `{"baz"}` ranks foo and bar (in either order) with a noise count of 1, for every order of the entries |
| `Pipeline.Trends` | main.ts:96-267 | a failed crawl ends the run with its error; otherwise the noise count is the number of noise keys of the crawl's frequency map, and the ranking has every ranked-list property above |
| `Pipeline.TwoPageFrequencies` | main.ts:104-115 | pages `[{x, y}]` and `[{x}]` give `{"x": 2, "y": 1}` |
| `Pipeline.TwoPageRanking` | main.ts:257-265 | with no noise, `{"x": 2, "y": 1}` ranks as `[("x", 2), ("y", 1)]` in every entry enumeration order |

## Left out

- Network access: `fetchJson`, `fetchHashtagPage`, the URL, the `X-API-KEY` header and JSON decoding (main.ts:15-21, 64-76). The model only sees a fetch function that returns a page or an error.
- The environment-variable check and its `throw` (main.ts:9-13), and all console output (main.ts:7, 255, 266). The report is returned instead of printed.
- The unused parallel traverse `parTraverseTE` (main.ts:85).
- The `cache.json` write and read through `JSON.stringify`/`JSON.parse` (main.ts:96-97, 101-103). `Pipeline.Trends` hands the crawl result straight to the aggregation, which assumes the cache round-trips the pages unchanged.
- Pipeline.Trends: on a failed crawl it returns the crawl error. It does not model the unchecked `.right` unwrap at main.ts:96, which would write an undefined value to the cache.
- The fetch parameter is a pure function of the page index, so it cannot model a remote source that answers differently on a retry. The hashtag id `"15269703"` and the `String(page)` cursor are folded into it.
- JavaScript object quirks of the accumulator. Inherited keys such as `constructor` would break `map[name] || 0`. Integer-like keys are enumerated first by `Object.entries`. The map is a Dafny `map<string, nat>`, and the entry order is left open.
- The literal noise list (main.ts:124-241). It is a parameter; note that the real list contains the empty name `""`.
- Numbers are unbounded naturals. The double-precision arithmetic of the counts and of `rankB - rankA` is not modelled; counts never approach 2^53.
- Crawl.Range: requires `min <= max + 1`; the `RangeError` that `Array(max - min + 1)` throws for a negative length (main.ts:79) is not modelled. The program only calls `range(0, 30)`.
- Crawl.Traverse: the fetch order and the stop at the first failure come from `A.traverse(TE.ApplicativeSeq)` (main.ts:86), whose library code is not part of this model. The model assumes the sequential applicative's documented semantics: one fetch at a time, in index order, ending at the first Left.
- Ranking.RankOrdered: it states non-increasing counts but does not pin the order among equal counts. That order is the stable sort's, over the entry order.

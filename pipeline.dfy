/** The program's run: crawl pages 0..30, count hashtags, report the noise count
    and the top 32 non-noise hashtags. */
module Pipeline {
  import opened Types
  import Crawl
  import Frequency
  import opened Ranking

  /** What the run prints: the noise-key count and the ranked pairs. */
  datatype Report = Report(filteredTagsCount: nat, ranked: seq<Entry>)

  /** The ranked list fits the frequency map: no noise, pairs taken from the map,
      no repeats, min(32, non-noise keys) entries, counts non-increasing, and
      nothing cut off that outranks the last entry. */
  ghost predicate RankedFrom(ranked: seq<Entry>, freq: map<string, nat>, noise: set<string>)
  {
    && (forall e :: e in ranked ==> e.0 !in noise && e.0 in freq && freq[e.0] == e.1)
    && Distinct(ranked)
    && |ranked| == Min(TopN, |freq.Keys - noise|)
    && NonIncreasing(ranked)
    && (forall n :: n in freq && n !in noise && n !in NamesOf(ranked) ==>
          |ranked| == TopN && freq[n] <= ranked[TopN - 1].1)
  }

  /** The whole run with the crawl result handed straight to the aggregation.
      A failed crawl aborts the run with the crawl's error. */
  method Trends(fetch: int -> Result<HashtagR>, noise: set<string>)
    returns (out: Result<Report>, calls: seq<int>)
    ensures calls == Crawl.Attempted(fetch, Crawl.Range(0, Crawl.PageCount))
    ensures out.Err? <==> Crawl.Traverse(fetch, Crawl.Range(0, Crawl.PageCount)).Err?
    ensures out.Err? ==> out.error == Crawl.Traverse(fetch, Crawl.Range(0, Crawl.PageCount)).error
    ensures out.Ok? ==>
              var freq := Frequency.Frequencies(Crawl.Traverse(fetch, Crawl.Range(0, Crawl.PageCount)).value);
              && out.value.filteredTagsCount == |freq.Keys * noise|
              && RankedFrom(out.value.ranked, freq, noise)
  {
    var crawl;
    crawl, calls := Crawl.FetchHashtagPages(fetch, Crawl.PageCount);
    match crawl {
      case Err(e) =>
        out := Err(e);
      case Ok(pages) =>
        var freq := Frequency.Aggregate(pages);
        var entries := ObjectEntries(freq);
        var count := FilteredTagsCount(entries, noise);
        var ranked := Rank(entries, noise);
        FilteredTagsCountIsNoiseKeys(entries, freq, noise);
        RankEntries(entries, freq, noise);
        RankOrdered(entries, freq, noise);
        out := Ok(Report(count, ranked));
    }
  }

  /** The scenario's two pages flatten to the hashtags x, y, x. */
  lemma TwoPageHashtags()
    ensures Frequency.Hashtags([HashtagR([Item([Hashtag("1", "x"), Hashtag("2", "y")])]),
                                HashtagR([Item([Hashtag("1", "x")])])])
            == [Hashtag("1", "x"), Hashtag("2", "y"), Hashtag("1", "x")]
  {
  }

  /** The hashtags x, y, x hold two names, x counted twice and y once. */
  lemma CountsOfXYX()
    ensures Frequency.Names([Hashtag("1", "x"), Hashtag("2", "y"), Hashtag("1", "x")]) == {"x", "y"}
    ensures Frequency.Count([Hashtag("1", "x"), Hashtag("2", "y"), Hashtag("1", "x")], "x") == 2
    ensures Frequency.Count([Hashtag("1", "x"), Hashtag("2", "y"), Hashtag("1", "x")], "y") == 1
  {
    var x, y := Hashtag("1", "x"), Hashtag("2", "y");
    var tags := [x, y, x];
    assert tags[..2] == [x, y] && [x, y][..1] == [x] && [x][..0] == [];
  }

  /** Any pages whose hashtags are x, y, x give the map {x: 2, y: 1}. */
  lemma FrequenciesOfXYX(pages: seq<HashtagR>)
    requires Frequency.Hashtags(pages) == [Hashtag("1", "x"), Hashtag("2", "y"), Hashtag("1", "x")]
    ensures Frequency.Frequencies(pages) == map["x" := 2, "y" := 1]
  {
    CountsOfXYX();
    var f := Frequency.Frequencies(pages);
    assert f.Keys == {"x", "y"};
    assert f["x"] == 2 && f["y"] == 1;
  }

  /** Two pages, the first with one item tagged x and y, the second with one item
      tagged x, count x twice and y once. */
  lemma TwoPageFrequencies()
    ensures Frequency.Frequencies([HashtagR([Item([Hashtag("1", "x"), Hashtag("2", "y")])]),
                                   HashtagR([Item([Hashtag("1", "x")])])])
            == map["x" := 2, "y" := 1]
  {
    TwoPageHashtags();
    FrequenciesOfXYX([HashtagR([Item([Hashtag("1", "x"), Hashtag("2", "y")])]),
                      HashtagR([Item([Hashtag("1", "x")])])]);
  }

  /** With no noise, the map {x: 2, y: 1} ranks as [("x", 2), ("y", 1)] whatever
      order its entries are enumerated in. */
  lemma TwoPageRanking(entries: seq<Entry>)
    requires EntriesOf(entries, map["x" := 2, "y" := 1])
    ensures Rank(entries, {}) == [("x", 2), ("y", 1)]
  {
    var freq := map["x" := 2, "y" := 1];
    RankEntries(entries, freq, {});
    RankOrdered(entries, freq, {});
    TwoPageKeys();
    OnlyRankingOfTwo(Rank(entries, {}), freq);
  }

  /** The scenario's map has two non-noise keys, so the ranking keeps both. */
  lemma TwoPageKeys()
    ensures Min(TopN, |map["x" := 2, "y" := 1].Keys - {}|) == 2
  {
  }

  /** The one list of two distinct pairs from {x: 2, y: 1} with non-increasing counts. */
  lemma OnlyRankingOfTwo(r: seq<Entry>, freq: map<string, nat>)
    requires freq == map["x" := 2, "y" := 1]
    requires |r| == 2 && Distinct(r) && NonIncreasing(r)
    requires forall e :: e in r ==> e.0 in freq && freq[e.0] == e.1
    ensures r == [("x", 2), ("y", 1)]
  {
    var a, b := r[0], r[1];
    assert a in r && b in r;
    assert a.0 != b.0;
    assert a.1 >= b.1;
    assert a == ("x", 2) && b == ("y", 1);
    assert r == [a, b];
  }
}

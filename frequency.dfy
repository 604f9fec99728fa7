/** Flattening the crawled pages into hashtags and counting each hashtag name. */
module Frequency {
  import opened Types

  /** `A.map(({ itemList }) => itemList)` followed by `A._flatten`. */
  function AllItems(pages: seq<HashtagR>): (items: seq<Item>)
    ensures forall p, it :: p in pages && it in p.itemList ==> it in items
    ensures forall it :: it in items ==> exists p :: p in pages && it in p.itemList
  {
    if pages == [] then [] else pages[0].itemList + AllItems(pages[1..])
  }

  /** `A.map((item) => item.textExtra)` followed by `A._flatten`. */
  function AllTags(items: seq<Item>): (tags: seq<Hashtag>)
    ensures forall it, t :: it in items && t in it.textExtra ==> t in tags
    ensures forall t :: t in tags ==> exists it :: it in items && t in it.textExtra
  {
    if items == [] then [] else items[0].textExtra + AllTags(items[1..])
  }

  /** Every hashtag of every item of every page, page order then item order. */
  function Hashtags(pages: seq<HashtagR>): seq<Hashtag>
  {
    AllTags(AllItems(pages))
  }

  /** The distinct hashtag names occurring in `tags`. */
  function Names(tags: seq<Hashtag>): set<string>
  {
    set t | t in tags :: t.hashtagName
  }

  /** Number of hashtags in `tags` whose name is `name`, counted left to right. */
  function Count(tags: seq<Hashtag>, name: string): (c: nat)
    ensures c <= |tags|
    ensures c == 0 <==> name !in Names(tags)
  {
    if tags == [] then 0
    else
      var init, last := tags[..|tags| - 1], tags[|tags| - 1];
      assert tags == init + [last];
      assert Names(tags) == Names(init) + {last.hashtagName};
      Count(init, name) + (if last.hashtagName == name then 1 else 0)
  }

  /** `map[name] || 0`: the stored count, or 0 for a name not seen yet. */
  function Lookup(freq: map<string, nat>, name: string): (c: nat)
    ensures name in freq ==> c == freq[name]
    ensures name !in freq ==> c == 0
  {
    if name in freq then freq[name] else 0
  }

  /** The frequency map of a crawl: each observed name with its number of occurrences. */
  function Frequencies(pages: seq<HashtagR>): map<string, nat>
  {
    var tags := Hashtags(pages);
    map n | n in Names(tags) :: Count(tags, n)
  }

  /** The `A.reduce` fold over the flattened hashtags, incrementing the count of
      each hashtag's name in a dictionary that starts empty. */
  method CountNames(tags: seq<Hashtag>) returns (freq: map<string, nat>)
    ensures freq.Keys == Names(tags)
    ensures forall n :: n in freq ==> freq[n] == Count(tags, n)
  {
    freq := map[];
    for i := 0 to |tags|
      invariant freq.Keys == Names(tags[..i])
      invariant forall n :: n in freq ==> freq[n] == Count(tags[..i], n)
    {
      var name := tags[i].hashtagName;
      var frequency := Lookup(freq, name);
      FoldStep(tags, i);
      freq := freq[name := frequency + 1];
    }
    assert tags[..|tags|] == tags;
  }

  /** The aggregation of main.ts: flatten pages into hashtags, then fold. The
      result maps each observed name to its number of occurrences. */
  method Aggregate(pages: seq<HashtagR>) returns (freq: map<string, nat>)
    ensures freq.Keys == Names(Hashtags(pages))
    ensures forall n :: n in freq ==> freq[n] == Count(Hashtags(pages), n) && freq[n] >= 1
    ensures freq == Frequencies(pages)
  {
    var tags := Hashtags(pages);
    freq := CountNames(tags);
  }

  /** One step of the fold: the prefix grows by the hashtag at position i. */
  lemma FoldStep(tags: seq<Hashtag>, i: nat)
    requires i < |tags|
    ensures Names(tags[..i + 1]) == Names(tags[..i]) + {tags[i].hashtagName}
    ensures forall n :: Count(tags[..i + 1], n) == Count(tags[..i], n) + (if tags[i].hashtagName == n then 1 else 0)
  {
    assert tags[..i + 1][..i] == tags[..i];
    assert tags[..i + 1] == tags[..i] + [tags[i]];
  }

  /** Counting over a concatenation adds the counts of both parts. */
  lemma {:induction false} CountAppend(a: seq<Hashtag>, b: seq<Hashtag>, name: string)
    ensures Count(a + b, name) == Count(a, name) + Count(b, name)
  {
    if b != [] {
      var init, last := b[..|b| - 1], b[|b| - 1];
      assert (a + b)[..|a + b| - 1] == a + init;
      assert (a + b)[|a + b| - 1] == last;
      CountAppend(a, init, name);
    } else {
      assert a + b == a;
    }
  }

  /** Flattening items distributes over concatenation. */
  lemma {:induction false} AllTagsAppend(a: seq<Item>, b: seq<Item>)
    ensures AllTags(a + b) == AllTags(a) + AllTags(b)
  {
    if a == [] {
      assert a + b == b;
    } else {
      assert (a + b)[1..] == a[1..] + b;
      AllTagsAppend(a[1..], b);
    }
  }

  /** Flattening pages distributes over concatenation. */
  lemma {:induction false} AllItemsAppend(a: seq<HashtagR>, b: seq<HashtagR>)
    ensures AllItems(a + b) == AllItems(a) + AllItems(b)
  {
    if a == [] {
      assert a + b == b;
    } else {
      assert (a + b)[1..] == a[1..] + b;
      AllItemsAppend(a[1..], b);
    }
  }

  /** The hashtags of `a + b` are those of `a` followed by those of `b`. */
  lemma HashtagsAppend(a: seq<HashtagR>, b: seq<HashtagR>)
    ensures Hashtags(a + b) == Hashtags(a) + Hashtags(b)
  {
    AllItemsAppend(a, b);
    AllTagsAppend(AllItems(a), AllItems(b));
  }

  /** The map's keys are exactly the observed names and every stored count is at least 1. */
  lemma FrequenciesKeys(pages: seq<HashtagR>)
    ensures Frequencies(pages).Keys == Names(Hashtags(pages))
    ensures forall n :: n in Frequencies(pages) ==> Frequencies(pages)[n] >= 1
  {
  }

  /** No page, or no hashtag on any page, gives the empty map. */
  lemma FrequenciesEmpty(pages: seq<HashtagR>)
    requires Hashtags(pages) == []
    ensures Frequencies(pages) == map[]
    ensures Frequencies([]) == map[]
  {
  }

  /** The count of a name over `a + b` is its count over `a` plus its count over `b`. */
  lemma FrequenciesAdditive(a: seq<HashtagR>, b: seq<HashtagR>, name: string)
    ensures Lookup(Frequencies(a + b), name) == Lookup(Frequencies(a), name) + Lookup(Frequencies(b), name)
  {
    HashtagsAppend(a, b);
    CountAppend(Hashtags(a), Hashtags(b), name);
  }

  /** Occurrences of `name` counted item by item, without flattening. */
  function ItemOccurrences(items: seq<Item>, name: string): nat
  {
    if items == [] then 0 else Count(items[0].textExtra, name) + ItemOccurrences(items[1..], name)
  }

  /** Occurrences of `name` counted page by page, without flattening. */
  function PageOccurrences(pages: seq<HashtagR>, name: string): nat
  {
    if pages == [] then 0 else ItemOccurrences(pages[0].itemList, name) + PageOccurrences(pages[1..], name)
  }

  /** Counting over the flattened hashtags of items equals summing the per-item counts. */
  lemma {:induction false} ItemOccurrencesFlat(items: seq<Item>, name: string)
    ensures Count(AllTags(items), name) == ItemOccurrences(items, name)
  {
    if items != [] {
      ItemOccurrencesFlat(items[1..], name);
      CountAppend(items[0].textExtra, AllTags(items[1..]), name);
    }
  }

  /** The stored count of a name is the number of its hashtags summed over all
      `textExtra` lists of all items of all pages, repeats within an item included. */
  lemma {:induction false} FrequenciesCountOccurrences(pages: seq<HashtagR>, name: string)
    ensures Lookup(Frequencies(pages), name) == PageOccurrences(pages, name)
  {
    if pages == [] {
      assert Names(Hashtags(pages)) == {};
    } else {
      FrequenciesCountOccurrences(pages[1..], name);
      assert pages == [pages[0]] + pages[1..];
      FrequenciesAdditive([pages[0]], pages[1..], name);
      assert AllItems([pages[0]]) == pages[0].itemList by {
        assert [pages[0]][1..] == [];
      }
      ItemOccurrencesFlat(pages[0].itemList, name);
    }
  }

  /** Two items each tagged "foo" once give {"foo": 2}. */
  lemma TwoItemsOneTagEach()
    ensures Frequencies([HashtagR([Item([Hashtag("1", "foo")]), Item([Hashtag("1", "foo")])])])
            == map["foo" := 2]
  {
  }

  /** One item tagging "foo" twice also gives {"foo": 2}: occurrences, not items, are counted. */
  lemma OneItemTwoTags()
    ensures Frequencies([HashtagR([Item([Hashtag("1", "foo"), Hashtag("1", "foo")])])])
            == map["foo" := 2]
  {
  }
}

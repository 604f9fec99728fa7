/** The noise count and the top-32 ranking built from the frequency map. */
module Ranking {

  /** A `[name, count]` pair as produced by `Object.entries`. */
  type Entry = (string, nat)

  /** Number of entries the ranking keeps (`arr.slice(0, 32)`). */
  const TopN: nat := 32

  /** The distinct names of a list of entries. */
  function NamesOf(s: seq<Entry>): set<string>
  {
    set e | e in s :: e.0
  }

  /** No name occurs twice. */
  predicate Distinct(s: seq<Entry>)
  {
    forall i, j :: 0 <= i < j < |s| ==> s[i].0 != s[j].0
  }

  /** `s` enumerates the entries of `freq` once each, in some order. */
  predicate EntriesOf(s: seq<Entry>, freq: map<string, nat>)
  {
    && (forall i :: 0 <= i < |s| ==> s[i].0 in freq && freq[s[i].0] == s[i].1)
    && freq.Keys <= NamesOf(s)
    && Distinct(s)
  }

  /** `Object.entries(freq)`: every key with its value, in an order the model leaves open. */
  method ObjectEntries(freq: map<string, nat>) returns (entries: seq<Entry>)
    ensures EntriesOf(entries, freq)
    ensures NamesOf(entries) == freq.Keys
  {
    entries := [];
    var rest := freq.Keys;
    while rest != {}
      invariant rest <= freq.Keys
      invariant NamesOf(entries) == freq.Keys - rest
      invariant forall i :: 0 <= i < |entries| ==> entries[i].0 in freq && freq[entries[i].0] == entries[i].1
      invariant Distinct(entries)
      decreases rest
    {
      var name :| name in rest;
      assert name !in NamesOf(entries);
      assert NamesOf(entries + [(name, freq[name])]) == NamesOf(entries) + {name};
      entries := entries + [(name, freq[name])];
      rest := rest - {name};
    }
  }

  /** `orderPairs`: negative when `a` ranks before `b` (a higher count), zero on a tie. */
  function OrderPairs(a: Entry, b: Entry): (r: int)
    ensures r < 0 <==> a.1 > b.1
    ensures r == 0 <==> a.1 == b.1
    ensures r > 0 <==> a.1 < b.1
  {
    b.1 - a.1
  }

  /** `A.filter` on noise membership: the entries whose name is (`wanted`) or is not
      (`!wanted`) in the noise list, in their original order. */
  function FilterNoise(s: seq<Entry>, noise: set<string>, wanted: bool): (r: seq<Entry>)
    ensures |r| <= |s|
    ensures forall e :: e in r <==> e in s && (e.0 in noise) == wanted
  {
    if s == [] then []
    else if (s[0].0 in noise) == wanted then [s[0]] + FilterNoise(s[1..], noise, wanted)
    else FilterNoise(s[1..], noise, wanted)
  }

  /** The filter keeps every wanted entry as often as it occurs, and nothing else. */
  lemma {:induction false} FilterNoiseMultiset(s: seq<Entry>, noise: set<string>, wanted: bool, e: Entry)
    ensures multiset(FilterNoise(s, noise, wanted))[e] == if (e.0 in noise) == wanted then multiset(s)[e] else 0
  {
    if s != [] {
      assert s == [s[0]] + s[1..];
      FilterNoiseMultiset(s[1..], noise, wanted, e);
    }
  }

  /** `filteredTagsCount`: how many entries have a name from the noise list. */
  function FilteredTagsCount(entries: seq<Entry>, noise: set<string>): (c: nat)
    ensures c <= |entries|
    ensures c == 0 <==> forall e :: e in entries ==> e.0 !in noise
  {
    var f := FilterNoise(entries, noise, true);
    assert f != [] ==> f[0] in f;
    |f|
  }

  /** Inserts `x` into a list sorted by `OrderPairs`, after every entry that ranks
      strictly before it and before the ties (a stable insertion). */
  function Insert(x: Entry, s: seq<Entry>): (r: seq<Entry>)
    ensures multiset(r) == multiset(s) + multiset{x}
  {
    if s == [] || OrderPairs(x, s[0]) <= 0 then [x] + s
    else
      assert s == [s[0]] + s[1..];
      [s[0]] + Insert(x, s[1..])
  }

  /** `[...arr].sort(orderPairs)` on a copy: a stable sort by count, descending. */
  function SortByCount(s: seq<Entry>): (r: seq<Entry>)
    ensures multiset(r) == multiset(s)
  {
    if s == [] then []
    else
      assert s == [s[0]] + s[1..];
      Insert(s[0], SortByCount(s[1..]))
  }

  /** Counts never increase along the list. */
  predicate NonIncreasing(s: seq<Entry>)
  {
    forall i, j :: 0 <= i < j < |s| ==> s[i].1 >= s[j].1
  }

  /** The ranking pipeline: drop noise, sort by count descending, keep the first 32. */
  function Rank(entries: seq<Entry>, noise: set<string>): (r: seq<Entry>)
    ensures |r| <= TopN && |r| <= |entries|
    ensures forall e :: e in r ==> e in entries && e.0 !in noise
  {
    var sorted := SortByCount(FilterNoise(entries, noise, false));
    SortByCountMembers(FilterNoise(entries, noise, false));
    sorted[..if |sorted| < TopN then |sorted| else TopN]
  }

  /** The smaller of two integers (the length of `slice(0, n)` on a shorter list). */
  function Min(a: int, b: int): int
  {
    if a < b then a else b
  }

  /** Prepending an entry keeps names distinct exactly when its name is new. */
  lemma DistinctCons(x: Entry, t: seq<Entry>)
    ensures Distinct([x] + t) <==> x.0 !in NamesOf(t) && Distinct(t)
  {
    var s := [x] + t;
    assert s[0] == x;
    if Distinct(s) {
      forall i, j | 0 <= i < j < |t|
        ensures t[i].0 != t[j].0
      {
        assert s[i + 1] == t[i] && s[j + 1] == t[j];
      }
      forall k | 0 <= k < |t|
        ensures t[k].0 != x.0
      {
        assert s[k + 1] == t[k];
      }
    }
    if x.0 !in NamesOf(t) && Distinct(t) {
      forall i, j | 0 <= i < j < |s|
        ensures s[i].0 != s[j].0
      {
        assert s[j] == t[j - 1];
        if i > 0 {
          assert s[i] == t[i - 1];
        } else {
          assert s[i] == x;
          assert t[j - 1] in t;
          assert t[j - 1].0 in NamesOf(t);
        }
      }
    }
  }

  /** A list without repeated names has as many entries as names. */
  lemma {:induction false} DistinctLength(s: seq<Entry>)
    requires Distinct(s)
    ensures |NamesOf(s)| == |s|
  {
    if s != [] {
      assert s == [s[0]] + s[1..];
      DistinctCons(s[0], s[1..]);
      DistinctLength(s[1..]);
      assert NamesOf(s) == {s[0].0} + NamesOf(s[1..]);
    }
  }

  /** Filtering a list without repeated names keeps it without repeated names. */
  lemma {:induction false} FilterNoiseDistinct(s: seq<Entry>, noise: set<string>, wanted: bool)
    requires Distinct(s)
    ensures Distinct(FilterNoise(s, noise, wanted))
  {
    if s != [] {
      assert s == [s[0]] + s[1..];
      DistinctCons(s[0], s[1..]);
      FilterNoiseDistinct(s[1..], noise, wanted);
      if (s[0].0 in noise) == wanted {
        DistinctCons(s[0], FilterNoise(s[1..], noise, wanted));
      }
    }
  }

  /** The names kept by the filter are the input names with the wanted noise membership. */
  lemma FilterNoiseNames(s: seq<Entry>, noise: set<string>, wanted: bool)
    ensures NamesOf(FilterNoise(s, noise, wanted)) == set n | n in NamesOf(s) && (n in noise) == wanted
  {
  }

  /** `filteredTagsCount` is the number of distinct keys of the map that are noise
      names, not the number of their occurrences. */
  lemma FilteredTagsCountIsNoiseKeys(entries: seq<Entry>, freq: map<string, nat>, noise: set<string>)
    requires EntriesOf(entries, freq)
    ensures FilteredTagsCount(entries, noise) == |freq.Keys * noise|
  {
    var f := FilterNoise(entries, noise, true);
    FilterNoiseDistinct(entries, noise, true);
    DistinctLength(f);
    FilterNoiseNames(entries, noise, true);
    assert NamesOf(entries) == freq.Keys;
    assert NamesOf(f) == freq.Keys * noise;
  }

  /** An insertion holds the inserted entry and the entries it was given, nothing else. */
  lemma InsertMembers(x: Entry, s: seq<Entry>)
    ensures forall e :: e in Insert(x, s) <==> e == x || e in s
  {
    var t := Insert(x, s);
    forall e
      ensures e in t <==> e == x || e in s
    {
      assert e in t <==> e in multiset(t);
      assert e in s <==> e in multiset(s);
    }
  }

  /** Inserting by `OrderPairs` into a list with non-increasing counts keeps it non-increasing. */
  lemma {:induction false} InsertNonIncreasing(x: Entry, s: seq<Entry>)
    requires NonIncreasing(s)
    ensures NonIncreasing(Insert(x, s))
  {
    if s != [] && OrderPairs(x, s[0]) > 0 {
      var rest := s[1..];
      InsertNonIncreasing(x, rest);
      InsertMembers(x, rest);
      var t := Insert(x, rest);
      forall e | e in t
        ensures s[0].1 >= e.1
      {
        if e != x {
          var k :| 0 <= k < |rest| && rest[k] == e;
          assert s[k + 1] == e;
        }
      }
      var r := [s[0]] + t;
      forall i, j | 0 <= i < j < |r|
        ensures r[i].1 >= r[j].1
      {
        assert r[j] == t[j - 1];
        if i > 0 {
          assert r[i] == t[i - 1];
        } else {
          assert t[j - 1] in t;
        }
      }
    }
  }

  /** The sort yields non-increasing counts. */
  lemma {:induction false} SortByCountNonIncreasing(s: seq<Entry>)
    ensures NonIncreasing(SortByCount(s))
  {
    if s != [] {
      SortByCountNonIncreasing(s[1..]);
      InsertNonIncreasing(s[0], SortByCount(s[1..]));
    }
  }

  /** Sorting keeps exactly the same entries. */
  lemma SortByCountMembers(s: seq<Entry>)
    ensures forall e :: e in SortByCount(s) <==> e in s
    ensures |SortByCount(s)| == |s|
  {
    var r := SortByCount(s);
    assert |multiset(r)| == |multiset(s)|;
    forall e
      ensures e in r <==> e in s
    {
      assert e in r <==> e in multiset(r);
      assert e in s <==> e in multiset(s);
    }
  }

  /** Inserting an entry with a new name keeps names distinct. */
  lemma {:induction false} InsertDistinct(x: Entry, s: seq<Entry>)
    requires Distinct(s) && x.0 !in NamesOf(s)
    ensures Distinct(Insert(x, s))
  {
    if s == [] || OrderPairs(x, s[0]) <= 0 {
      DistinctCons(x, s);
    } else {
      assert s == [s[0]] + s[1..];
      DistinctCons(s[0], s[1..]);
      InsertDistinct(x, s[1..]);
      var t := Insert(x, s[1..]);
      assert multiset(t) == multiset(s[1..]) + multiset{x};
      forall e | e in t
        ensures e.0 != s[0].0
      {
        assert e in multiset(t);
        if e != x {
          assert e in s[1..];
          assert e.0 in NamesOf(s[1..]);
        } else {
          assert s[0] in s;
        }
      }
      DistinctCons(s[0], t);
    }
  }

  /** Sorting a list without repeated names keeps it without repeated names. */
  lemma {:induction false} SortByCountDistinct(s: seq<Entry>)
    requires Distinct(s)
    ensures Distinct(SortByCount(s))
  {
    if s != [] {
      assert s == [s[0]] + s[1..];
      DistinctCons(s[0], s[1..]);
      SortByCountDistinct(s[1..]);
      SortByCountMembers(s[1..]);
      InsertDistinct(s[0], SortByCount(s[1..]));
    }
  }

  /** The ranked list holds no noise name and no name twice, every pair is taken
      unchanged from the map, and it has min(32, non-noise keys) entries. */
  lemma RankEntries(entries: seq<Entry>, freq: map<string, nat>, noise: set<string>)
    requires EntriesOf(entries, freq)
    ensures forall e :: e in Rank(entries, noise) ==> e.0 !in noise && e.0 in freq && freq[e.0] == e.1
    ensures Distinct(Rank(entries, noise))
    ensures |Rank(entries, noise)| == Min(TopN, |freq.Keys - noise|)
  {
    var f := FilterNoise(entries, noise, false);
    var sorted := SortByCount(f);
    var r := Rank(entries, noise);
    SortByCountMembers(f);
    forall e | e in r
      ensures e.0 !in noise && e.0 in freq && freq[e.0] == e.1
    {
      var k :| 0 <= k < |r| && r[k] == e;
      assert sorted[k] == e;
      assert e in f;
      var i :| 0 <= i < |entries| && entries[i] == e;
    }
    FilterNoiseDistinct(entries, noise, false);
    SortByCountDistinct(f);
    DistinctLength(f);
    FilterNoiseNames(entries, noise, false);
    assert NamesOf(entries) == freq.Keys;
    assert NamesOf(f) == freq.Keys - noise;
  }

  /** The ranked list has non-increasing counts, and a non-noise key that was cut
      off has a count no greater than the last listed entry's. */
  lemma RankOrdered(entries: seq<Entry>, freq: map<string, nat>, noise: set<string>)
    requires EntriesOf(entries, freq)
    ensures NonIncreasing(Rank(entries, noise))
    ensures forall n :: n in freq && n !in noise && n !in NamesOf(Rank(entries, noise)) ==>
              |Rank(entries, noise)| == TopN && freq[n] <= Rank(entries, noise)[TopN - 1].1
  {
    var f := FilterNoise(entries, noise, false);
    var sorted := SortByCount(f);
    var r := Rank(entries, noise);
    SortByCountNonIncreasing(f);
    SortByCountMembers(f);
    forall n | n in freq && n !in noise && n !in NamesOf(r)
      ensures |r| == TopN && freq[n] <= r[TopN - 1].1
    {
      assert n in NamesOf(entries);
      var e :| e in entries && e.0 == n;
      var i :| 0 <= i < |entries| && entries[i] == e;
      assert e in sorted;
      var j :| 0 <= j < |sorted| && sorted[j] == e;
      assert j >= |r|;
      assert sorted[TopN - 1] == r[TopN - 1];
    }
  }

  /** `rank({"foo": 5, "bar": 5, "baz": 1})` with noise {"baz"}: foo and bar, in
      either order, and one noise key, whatever order the entries are enumerated in. */
  lemma RankExample(entries: seq<Entry>)
    requires EntriesOf(entries, map["foo" := 5, "bar" := 5, "baz" := 1])
    ensures Rank(entries, {"baz"}) in {[("foo", 5), ("bar", 5)], [("bar", 5), ("foo", 5)]}
    ensures FilteredTagsCount(entries, {"baz"}) == 1
  {
    var freq := map["foo" := 5, "bar" := 5, "baz" := 1];
    FilteredTagsCountIsNoiseKeys(entries, freq, {"baz"});
    RankEntries(entries, freq, {"baz"});
    ExampleKeys();
    OnlyRankingOfFooBar(Rank(entries, {"baz"}));
  }

  /** Sizes of the noise and non-noise key sets of the example map. */
  lemma ExampleKeys()
    ensures |map["foo" := 5, "bar" := 5, "baz" := 1].Keys * {"baz"}| == 1
    ensures Min(TopN, |map["foo" := 5, "bar" := 5, "baz" := 1].Keys - {"baz"}|) == 2
  {
    var keys := map["foo" := 5, "bar" := 5, "baz" := 1].Keys;
    assert keys * {"baz"} == {"baz"};
    assert keys - {"baz"} == {"foo", "bar"};
    assert |{"foo", "bar"}| == 2;
  }

  /** Two pairs with distinct names from {foo: 5, bar: 5} are foo and bar in some order. */
  lemma OnlyRankingOfFooBar(r: seq<Entry>)
    requires |r| == 2 && Distinct(r)
    requires forall e :: e in r ==> e.0 in {"foo", "bar"} && e.1 == 5
    ensures r in {[("foo", 5), ("bar", 5)], [("bar", 5), ("foo", 5)]}
  {
    var a, b := r[0], r[1];
    assert a in r && b in r;
    assert a.0 != b.0;
    assert r == [a, b];
  }
}

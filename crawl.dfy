/** Page indices and the sequential, fail-fast crawl over them. */
module Crawl {
  import opened Types

  /** The number passed to the crawl by the program; pages 0..30 are requested. */
  const PageCount: int := 30

  /** `range(min, max)`: the integers from `min` to `max`, both included.
      `Array(max - min + 1)` throws for a negative length, hence the precondition. */
  function Range(min: int, max: int): (r: seq<int>)
    requires min <= max + 1
    ensures |r| == max - min + 1
    ensures forall i :: 0 <= i < |r| ==> r[i] == min + i
  {
    seq(max - min + 1, i => i + min)
  }

  /** The range is ascending and holds exactly the integers of [min, max]. */
  lemma RangeMembers(min: int, max: int)
    requires min <= max + 1
    ensures forall i, j :: 0 <= i < j < |Range(min, max)| ==> Range(min, max)[i] < Range(min, max)[j]
    ensures forall x :: x in Range(min, max) <==> min <= x <= max
  {
    var r := Range(min, max);
    forall x | min <= x <= max
      ensures x in r
    {
      assert r[x - min] == x;
    }
  }

  /** `fetchHashtagPages(n)` asks for the pages 0..n: n + 1 of them, in ascending order. */
  lemma CrawlIndices(pageCount: int)
    requires pageCount >= -1
    ensures |Range(0, pageCount)| == pageCount + 1
    ensures forall i :: 0 <= i < |Range(0, pageCount)| ==> Range(0, pageCount)[i] == i
    ensures |Range(0, PageCount)| == 31
  {
  }

  /** Specification of the sequential traverse: fetch the indices front to back,
      collect the payloads in index order, and stop at the first error. */
  function Traverse(fetch: int -> Result<HashtagR>, indices: seq<int>): (r: Result<seq<HashtagR>>)
    ensures r.Ok? ==> |r.value| == |indices|
    ensures r.Err? ==> exists i :: 0 <= i < |indices| && fetch(indices[i]) == Err(r.error)
                                   && forall j :: 0 <= j < i ==> fetch(indices[j]).Ok?
  {
    if indices == [] then Ok([])
    else match fetch(indices[0])
      case Err(e) => Err(e)
      case Ok(p) =>
        match Traverse(fetch, indices[1..])
        case Err(e) => Err(e)
        case Ok(ps) => Ok([p] + ps)
  }

  /** The indices whose fetch is started: every index up to and including the first failure. */
  function Attempted(fetch: int -> Result<HashtagR>, indices: seq<int>): (r: seq<int>)
    ensures |r| <= |indices| && r == indices[..|r|]
    ensures r == [] <==> indices == []
  {
    if indices == [] then []
    else if fetch(indices[0]).Err? then [indices[0]]
    else [indices[0]] + Attempted(fetch, indices[1..])
  }

  /** Payloads already collected, put in front of the outcome of the remaining indices. */
  function Prepend(pages: seq<HashtagR>, rest: Result<seq<HashtagR>>): Result<seq<HashtagR>>
  {
    match rest
    case Err(e) => Err(e)
    case Ok(ps) => Ok(pages + ps)
  }

  /** The crawl succeeds exactly when every fetch succeeds; it then holds one payload
      per index, in index order, and every index was fetched. */
  lemma {:induction false} TraverseSucceeds(fetch: int -> Result<HashtagR>, indices: seq<int>)
    ensures Traverse(fetch, indices).Ok? <==> forall i :: 0 <= i < |indices| ==> fetch(indices[i]).Ok?
    ensures Traverse(fetch, indices).Ok? ==>
              && |Traverse(fetch, indices).value| == |indices|
              && (forall i :: 0 <= i < |indices| ==> Traverse(fetch, indices).value[i] == fetch(indices[i]).value)
              && Attempted(fetch, indices) == indices
  {
    if indices != [] {
      TraverseSucceeds(fetch, indices[1..]);
      if Traverse(fetch, indices).Ok? {
        var ps := Traverse(fetch, indices).value;
        forall i | 0 <= i < |indices|
          ensures ps[i] == fetch(indices[i]).value
        {
          if i > 0 {
            assert indices[1..][i - 1] == indices[i];
          }
        }
      } else if fetch(indices[0]).Ok? {
        var k :| 0 <= k < |indices[1..]| && !fetch(indices[1..][k]).Ok?;
        assert indices[k + 1] == indices[1..][k];
      }
    }
  }

  /** When index number k is the first to fail, the crawl yields exactly that error
      and no index after it is fetched. */
  lemma {:induction false} TraverseFailsAtFirstError(fetch: int -> Result<HashtagR>, indices: seq<int>, k: nat)
    requires k < |indices|
    requires fetch(indices[k]).Err?
    requires forall i :: 0 <= i < k ==> fetch(indices[i]).Ok?
    ensures Traverse(fetch, indices) == Err(fetch(indices[k]).error)
    ensures Attempted(fetch, indices) == indices[..k + 1]
  {
    if k > 0 {
      assert fetch(indices[0]).Ok?;
      var rest := indices[1..];
      forall i | 0 <= i < k - 1
        ensures fetch(rest[i]).Ok?
      {
        assert rest[i] == indices[i + 1];
      }
      TraverseFailsAtFirstError(fetch, rest, k - 1);
      assert [indices[0]] + rest[..k] == indices[..k + 1];
    }
  }

  /** `fetchHashtagPages(pageCount)`: fetches pages 0..pageCount one after the other.
      `calls` lists the page indices whose fetch was started, in order. */
  method FetchHashtagPages(fetch: int -> Result<HashtagR>, pageCount: int)
    returns (r: Result<seq<HashtagR>>, calls: seq<int>)
    requires pageCount >= -1
    ensures r == Traverse(fetch, Range(0, pageCount))
    ensures calls == Attempted(fetch, Range(0, pageCount))
  {
    var indices := Range(0, pageCount);
    var pages: seq<HashtagR> := [];
    calls := [];
    var i := 0;
    assert indices[0..] == indices;
    match Traverse(fetch, indices) {
      case Ok(ps) => assert [] + ps == ps;
      case Err(_) =>
    }
    while i < |indices|
      invariant 0 <= i <= |indices|
      invariant Traverse(fetch, indices) == Prepend(pages, Traverse(fetch, indices[i..]))
      invariant Attempted(fetch, indices) == calls + Attempted(fetch, indices[i..])
    {
      var page := indices[i];
      calls := calls + [page];
      assert indices[i..][1..] == indices[i + 1..];
      match fetch(page) {
        case Err(e) =>
          r := Err(e);
          return;
        case Ok(p) =>
          match Traverse(fetch, indices[i + 1..]) {
            case Ok(ps) => assert pages + ([p] + ps) == (pages + [p]) + ps;
            case Err(_) =>
          }
          pages := pages + [p];
      }
      i := i + 1;
    }
    assert pages + [] == pages;
    r := Ok(pages);
  }
}

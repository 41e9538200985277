/** `crawl`: the frontier/visited loop. Fetching a page (`get_page`) and
    extracting its links (`extract_links`) are the oracles `page` and
    `links`; a page of "" is a failed fetch. */
module Crawler {

  /** MAX_URLS: the crawl stops once this many URLs have been visited. */
  const MaxUrls: nat := 10

  /** The URLs of a fetch trace whose fetch gave a non-empty page: the
      visited set after those fetches. */
  ghost function Successes(fetched: seq<string>, page: string -> string): (r: set<string>)
  {
    set u | u in fetched && page(u) != ""
  }

  /** One more fetch adds its URL to the visited set exactly when its page
      is not empty. */
  lemma SuccessesAppend(fetched: seq<string>, x: string, page: string -> string)
    ensures page(x) != "" ==> Successes(fetched + [x], page) == Successes(fetched, page) + {x}
    ensures page(x) == "" ==> Successes(fetched + [x], page) == Successes(fetched, page)
  {
    assert (fetched + [x])[..|fetched|] == fetched;
  }

  /** `x` is among the links extracted from some page fetched with success
      among the first `n` fetches of the trace. */
  ghost predicate LinkedBefore(fetched: seq<string>, n: nat, x: string,
                               page: string -> string, links: (string, string) -> set<string>)
    requires n <= |fetched|
  {
    exists j :: 0 <= j < n && page(fetched[j]) != "" && x in links(fetched[j], page(fetched[j]))
  }

  /** Every link of a visited page was visited too or cannot be fetched, and
      so was the seed: nothing reachable was left behind. */
  ghost predicate Closed(seed: string, visited: set<string>,
                         page: string -> string, links: (string, string) -> set<string>)
  {
    && (seed in visited || page(seed) == "")
    && forall v, l :: v in visited && l in links(v, page(v)) ==> l in visited || page(l) == ""
  }

  /** No URL of the trace is fetched once an earlier fetch of it gave a
      page: a visited URL is never fetched again. */
  ghost predicate NoRefetch(fetched: seq<string>, page: string -> string)
  {
    forall i :: 0 <= i < |fetched| ==> fetched[i] !in Successes(fetched[..i], page)
  }

  /** The trace starts at the seed and every later fetch follows a link of
      an earlier successful one. */
  ghost predicate FollowsLinks(seed: string, fetched: seq<string>,
                               page: string -> string, links: (string, string) -> set<string>)
  {
    && (fetched != [] ==> fetched[0] == seed)
    && (forall i :: 0 < i < |fetched| ==> LinkedBefore(fetched, i, fetched[i], page, links))
  }

  /** Where the URLs waiting to be crawled came from: the seed before the
      first fetch, links of successful fetches after it. */
  ghost predicate FrontierOk(seed: string, toCrawl: set<string>, fetched: seq<string>,
                             page: string -> string, links: (string, string) -> set<string>)
  {
    && (fetched == [] ==> toCrawl == {seed})
    && (fetched != [] ==> forall x :: x in toCrawl ==> LinkedBefore(fetched, |fetched|, x, page, links))
  }

  /** Nothing found so far is lost: the seed and every link of a visited
      page is waiting, visited, or cannot be fetched. */
  ghost predicate Covered(seed: string, toCrawl: set<string>, visited: set<string>,
                          page: string -> string, links: (string, string) -> set<string>)
  {
    && (seed in toCrawl || seed in visited || page(seed) == "")
    && forall v, l :: v in visited && l in links(v, page(v)) ==> l in toCrawl || l in visited || page(l) == ""
  }

  /** A link found among the first `n` fetches is still found after more
      fetches are appended. */
  lemma LinkedBeforeExtends(fetched: seq<string>, more: seq<string>, n: nat, m: nat, x: string,
                            page: string -> string, links: (string, string) -> set<string>)
    requires n <= m <= |fetched + more|
    requires n <= |fetched|
    requires LinkedBefore(fetched, n, x, page, links)
    ensures LinkedBefore(fetched + more, m, x, page, links)
  {
    var j :| 0 <= j < n && page(fetched[j]) != "" && x in links(fetched[j], page(fetched[j]));
    assert (fetched + more)[j] == fetched[j];
  }

  /** Fetching a URL that is not visited keeps `NoRefetch`. */
  lemma FetchKeepsNoRefetch(fetched: seq<string>, x: string, page: string -> string)
    requires NoRefetch(fetched, page)
    requires x !in Successes(fetched, page)
    ensures NoRefetch(fetched + [x], page)
  {
    var after := fetched + [x];
    forall i | 0 <= i < |after|
      ensures after[i] !in Successes(after[..i], page)
    {
      if i < |fetched| {
        assert after[..i] == fetched[..i];
      } else {
        assert after[..i] == fetched;
      }
    }
  }

  /** Fetching a URL taken from the frontier keeps `FollowsLinks`. */
  lemma FetchKeepsFollowsLinks(seed: string, fetched: seq<string>, x: string,
                               page: string -> string, links: (string, string) -> set<string>)
    requires FollowsLinks(seed, fetched, page, links)
    requires fetched == [] ==> x == seed
    requires fetched != [] ==> LinkedBefore(fetched, |fetched|, x, page, links)
    ensures FollowsLinks(seed, fetched + [x], page, links)
  {
    var after := fetched + [x];
    forall i | 0 < i < |after|
      ensures LinkedBefore(after, i, after[i], page, links)
    {
      if i < |fetched| {
        LinkedBeforeExtends(fetched, [x], i, i, fetched[i], page, links);
      } else {
        LinkedBeforeExtends(fetched, [x], |fetched|, i, x, page, links);
      }
    }
  }

  /** After a fetch of `x`, what is left of the frontier, together with the
      links of `x` when its page is not empty, is linked from the trace. */
  lemma FetchKeepsFrontier(seed: string, toCrawl: set<string>, fetched: seq<string>, x: string,
                           page: string -> string, links: (string, string) -> set<string>)
    requires FrontierOk(seed, toCrawl, fetched, page, links)
    requires x in toCrawl
    ensures FrontierOk(seed, (toCrawl - {x}) + (if page(x) != "" then links(x, page(x)) else {}),
                       fetched + [x], page, links)
  {
    var after := fetched + [x];
    forall y | y in (toCrawl - {x}) + (if page(x) != "" then links(x, page(x)) else {})
      ensures LinkedBefore(after, |after|, y, page, links)
    {
      if y in toCrawl - {x} {
        LinkedBeforeExtends(fetched, [x], |fetched|, |after|, y, page, links);
      } else {
        assert after[|fetched|] == x;
      }
    }
  }

  /** Taking `x` from the frontier keeps every link of a visited page
      accounted for: `x` itself becomes visited or has an empty page, and
      its own links join the frontier. */
  lemma FetchKeepsCovered(seed: string, toCrawl: set<string>, visited: set<string>, x: string,
                          page: string -> string, links: (string, string) -> set<string>)
    requires Covered(seed, toCrawl, visited, page, links)
    requires x in toCrawl
    ensures var found := if page(x) != "" then links(x, page(x)) else {};
            var done := if page(x) != "" then {x} else {};
            Covered(seed, (toCrawl - {x}) + found, visited + done, page, links)
  {
  }

  /** A URL waiting in the frontier is the seed, or some fetch has already
      succeeded: links only come from pages that were fetched. */
  lemma WaitingIsSeedOrLinked(seed: string, toCrawl: set<string>, fetched: seq<string>, x: string,
                              page: string -> string, links: (string, string) -> set<string>)
    requires FrontierOk(seed, toCrawl, fetched, page, links)
    requires x in toCrawl
    ensures x == seed || Successes(fetched, page) != {}
  {
    if fetched != [] {
      var j :| 0 <= j < |fetched| && page(fetched[j]) != "" && x in links(fetched[j], page(fetched[j]));
      assert fetched[j] in Successes(fetched, page);
    }
  }

  /** The number of fetches in the trace that gave a page. */
  function SuccessCount(fetched: seq<string>, page: string -> string): (n: nat)
  {
    if fetched == [] then 0
    else SuccessCount(fetched[..|fetched| - 1], page) + (if page(fetched[|fetched| - 1]) != "" then 1 else 0)
  }

  /** A prefix of a trace without re-fetches has none either. */
  lemma NoRefetchPrefix(fetched: seq<string>, n: nat, page: string -> string)
    requires n <= |fetched|
    requires NoRefetch(fetched, page)
    ensures NoRefetch(fetched[..n], page)
  {
    forall i | 0 <= i < n
      ensures fetched[..n][i] !in Successes(fetched[..n][..i], page)
    {
      assert fetched[..n][..i] == fetched[..i];
    }
  }

  /** Since a visited URL is never fetched again, each successful fetch
      adds a new URL: there are exactly as many as visited URLs. */
  lemma {:induction false} SuccessCountIsVisited(fetched: seq<string>, page: string -> string)
    requires NoRefetch(fetched, page)
    ensures SuccessCount(fetched, page) == |Successes(fetched, page)|
  {
    if fetched != [] {
      var n := |fetched| - 1;
      var init, last := fetched[..n], fetched[n];
      NoRefetchPrefix(fetched, n, page);
      SuccessCountIsVisited(init, page);
      assert fetched == init + [last];
      SuccessesAppend(init, last, page);
    }
  }

  /** The visited set of a run only grows: after more fetches it holds all
      it held before. */
  lemma VisitedOnlyGrows(fetched: seq<string>, i: nat, j: nat, page: string -> string)
    requires i <= j <= |fetched|
    ensures Successes(fetched[..i], page) <= Successes(fetched[..j], page)
  {
    forall u | u in Successes(fetched[..i], page)
      ensures u in Successes(fetched[..j], page)
    {
      var k :| 0 <= k < i && fetched[..i][k] == u;
      assert fetched[..j][k] == u;
    }
  }

  /** Every visited URL is the seed or a link of a page that was visited. */
  lemma VisitedFromSeedOrLinks(seed: string, fetched: seq<string>,
                               page: string -> string, links: (string, string) -> set<string>)
    requires FollowsLinks(seed, fetched, page, links)
    ensures forall u :: u in Successes(fetched, page) ==>
              u == seed || exists v :: v in Successes(fetched, page) && u in links(v, page(v))
  {
    forall u | u in Successes(fetched, page)
      ensures u == seed || exists v :: v in Successes(fetched, page) && u in links(v, page(v))
    {
      var i :| 0 <= i < |fetched| && fetched[i] == u;
      if i > 0 {
        var j :| 0 <= j < i && page(fetched[j]) != "" && u in links(fetched[j], page(fetched[j]));
        assert fetched[j] in Successes(fetched, page);
      }
    }
  }

  /** The loop invariant of `Crawl`. */
  ghost predicate CrawlInv(seed: string, toCrawl: set<string>, visited: set<string>, fetched: seq<string>,
                           page: string -> string, links: (string, string) -> set<string>)
  {
    && |visited| <= MaxUrls
    && visited == Successes(fetched, page)
    && NoRefetch(fetched, page)
    && FollowsLinks(seed, fetched, page, links)
    && FrontierOk(seed, toCrawl, fetched, page, links)
    && Covered(seed, toCrawl, visited, page, links)
    && (page(seed) == "" ==> visited == {})
  }

  /** The invariant holds before the first iteration. */
  lemma CrawlStarts(seed: string, page: string -> string, links: (string, string) -> set<string>)
    ensures CrawlInv(seed, {seed}, {}, [], page, links)
  {
  }

  /** An iteration that pops a URL not yet visited and fetches it keeps the
      invariant, whether or not the page comes back empty. */
  lemma FetchStep(seed: string, toCrawl: set<string>, visited: set<string>, fetched: seq<string>, x: string,
                  page: string -> string, links: (string, string) -> set<string>)
    requires CrawlInv(seed, toCrawl, visited, fetched, page, links)
    requires x in toCrawl && x !in visited && |visited| < MaxUrls
    ensures page(x) != "" ==>
              CrawlInv(seed, (toCrawl - {x}) + links(x, page(x)), visited + {x}, fetched + [x], page, links)
    ensures page(x) == "" ==> CrawlInv(seed, toCrawl - {x}, visited, fetched + [x], page, links)
  {
    SuccessesAppend(fetched, x, page);
    FetchKeepsNoRefetch(fetched, x, page);
    FetchKeepsFollowsLinks(seed, fetched, x, page, links);
    FetchKeepsFrontier(seed, toCrawl, fetched, x, page, links);
    FetchKeepsCovered(seed, toCrawl, visited, x, page, links);
    WaitingIsSeedOrLinked(seed, toCrawl, fetched, x, page, links);
  }

  /** An iteration that pops a URL already visited only shrinks the
      frontier, and keeps the invariant. */
  lemma SkipStep(seed: string, toCrawl: set<string>, visited: set<string>, fetched: seq<string>, x: string,
                 page: string -> string, links: (string, string) -> set<string>)
    requires CrawlInv(seed, toCrawl, visited, fetched, page, links)
    requires x in toCrawl && x in visited
    ensures CrawlInv(seed, toCrawl - {x}, visited, fetched, page, links)
  {
  }

  /** When the loop stops, the invariant gives what `crawl` returns. */
  lemma CrawlEnds(seed: string, toCrawl: set<string>, visited: set<string>, fetched: seq<string>,
                  page: string -> string, links: (string, string) -> set<string>)
    requires CrawlInv(seed, toCrawl, visited, fetched, page, links)
    requires toCrawl == {} || |visited| >= MaxUrls
    ensures |visited| <= MaxUrls
    ensures toCrawl == {} || |visited| == MaxUrls
    ensures visited == Successes(fetched, page)
    ensures |fetched| > 0 && fetched[0] == seed
    ensures NoRefetch(fetched, page)
    ensures FollowsLinks(seed, fetched, page, links)
    ensures |visited| == MaxUrls || Closed(seed, visited, page, links)
    ensures page(seed) == "" ==> visited == {}
  {
  }

  /** `crawl(seed_url)`. `fetched` records, in order, every URL handed to
      `page`; `frontier` is what is left to crawl on exit
      (`urls_tocrawl`, which the code does not return). */
  method Crawl(seed: string, page: string -> string, links: (string, string) -> set<string>)
    returns (visited: set<string>, ghost fetched: seq<string>, ghost frontier: set<string>)
    ensures |visited| <= MaxUrls
    ensures frontier == {} || |visited| == MaxUrls
    ensures visited == Successes(fetched, page)
    ensures |fetched| > 0 && fetched[0] == seed
    ensures NoRefetch(fetched, page)
    ensures FollowsLinks(seed, fetched, page, links)
    ensures SuccessCount(fetched, page) <= MaxUrls
    ensures forall u :: u in visited ==> page(u) != ""
    ensures forall u :: u in visited ==> u == seed || exists v :: v in visited && u in links(v, page(v))
    ensures |visited| == MaxUrls || Closed(seed, visited, page, links)
    ensures page(seed) == "" ==> visited == {}
  {
    var toCrawl := {seed};
    visited := {};
    fetched := [];
    CrawlStarts(seed, page, links);
    while toCrawl != {} && |visited| < MaxUrls
      invariant CrawlInv(seed, toCrawl, visited, fetched, page, links)
      invariant |visited| <= MaxUrls
      decreases MaxUrls - |visited|, |toCrawl|
    {
      var current :| current in toCrawl;
      ghost var waiting := toCrawl;
      toCrawl := toCrawl - {current};
      assert |toCrawl| < |waiting|;
      if current !in visited {
        FetchStep(seed, waiting, visited, fetched, current, page, links);
        var content := page(current);
        fetched := fetched + [current];
        if content != "" {
          toCrawl := toCrawl + links(current, content);
          assert |visited + {current}| == |visited| + 1;
          visited := visited + {current};
        }
      } else {
        SkipStep(seed, waiting, visited, fetched, current, page, links);
      }
    }
    CrawlEnds(seed, toCrawl, visited, fetched, page, links);
    SuccessCountIsVisited(fetched, page);
    VisitedFromSeedOrLinks(seed, fetched, page, links);
    frontier := toCrawl;
  }

  /** Two pages that link only to each other: the crawl stops after
      visiting both. */
  method CrawlTwoPageCycle() returns (visited: set<string>)
    ensures visited == {"a", "b"}
  {
    var page := (u: string) => if u == "a" || u == "b" then "<html></html>" else "";
    var links := (u: string, content: string) => if u == "a" then {"b"} else if u == "b" then {"a"} else {};
    ghost var fetched, frontier;
    visited, fetched, frontier := Crawl("a", page, links);
    assert visited <= {"a", "b"};
    assert |visited| <= 2 by {
      assert |visited| <= |{"a", "b"}| by { SubsetSize(visited, {"a", "b"}); }
    }
    assert "b" in links("a", page("a"));
  }

  /** A subset has no more elements than its superset. */
  lemma SubsetSize<T>(a: set<T>, b: set<T>)
    requires a <= b
    ensures |a| <= |b|
  {
    assert b == a + (b - a);
  }
}

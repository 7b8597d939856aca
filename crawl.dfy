/**
 * `crawl_category_all_pages` and `crawl_category`: collect product links
 * page by page, then crawl every product page and keep the records of those
 * that did not raise.
 *
 * The browser is abstracted into two inputs. `listing(p)` is what the
 * category listing shows once the crawler is on its page `p`: the `href` of
 * each product link, and whether moving on to page `p + 1` succeeded
 * (`goto_page`). `load(url)` is what visiting a product page yields.
 */
module Crawl {
  import opened Wrappers
  import opened Text
  import opened InfoPage

  /** What the crawler reads from one listing page. */
  datatype ListingPage = ListingPage(hrefs: seq<Option<string>>, moved: bool)

  /** `max_pages`'s default, the cap `crawl_category` uses. */
  const DefaultMaxPages: int := 50

  /** `url and url.startswith("http")`. */
  predicate IsProductUrl(href: Option<string>) {
    href.Some? && StartsWith(href.value, "http")
  }

  /** The product URLs of one page, in item order. */
  function HttpUrls(hrefs: seq<Option<string>>): seq<string> {
    if hrefs == [] then []
    else
      var last := hrefs[|hrefs| - 1];
      HttpUrls(hrefs[..|hrefs| - 1]) + (if IsProductUrl(last) then [last.value] else [])
  }

  /**
   * The URLs collected from page `p` on: nothing past the cap or on a page
   * without items; otherwise this page's URLs, then the later pages' if the
   * move to the next page succeeded.
   */
  function WalkUrls(listing: nat -> ListingPage, p: nat, maxPages: int): seq<string>
    decreases maxPages - p
  {
    if p > maxPages then []
    else
      var page := listing(p);
      if |page.hrefs| == 0 then []
      else HttpUrls(page.hrefs) + (if page.moved then WalkUrls(listing, p + 1, maxPages) else [])
  }

  /** The pages whose items are read, from page `p` on. */
  function VisitedPages(listing: nat -> ListingPage, p: nat, maxPages: int): seq<nat>
    decreases maxPages - p
  {
    if p > maxPages then []
    else if |listing(p).hrefs| == 0 || !listing(p).moved then [p]
    else [p] + VisitedPages(listing, p + 1, maxPages)
  }

  /** The product URLs of the given pages, page after page. */
  function UrlsOfPages(listing: nat -> ListingPage, pages: seq<nat>): seq<string> {
    if pages == [] then [] else HttpUrls(listing(pages[0]).hrefs) + UrlsOfPages(listing, pages[1..])
  }

  /** The loop over one page's items, keeping each product URL. */
  method PageProductUrls(items: seq<Option<string>>) returns (urls: seq<string>)
    ensures urls == HttpUrls(items)
  {
    urls := [];
    var i := 0;
    while i < |items|
      invariant 0 <= i <= |items|
      invariant urls == HttpUrls(items[..i])
    {
      assert items[..i + 1][..i] == items[..i];
      var url := items[i];
      if IsProductUrl(url) {
        urls := urls + [url.value];
      }
      i := i + 1;
    }
    assert items[..i] == items;
  }

  /**
   * `crawl_category_all_pages(page, category_url, max_pages)`: the loop over
   * the pages, which stops at a page without items or a failed move.
   */
  method CrawlCategoryAllPages(listing: nat -> ListingPage, maxPages: int) returns (productUrls: seq<string>)
    ensures productUrls == WalkUrls(listing, 1, maxPages)
  {
    productUrls := [];
    var p: nat := 1;
    while p <= maxPages
      invariant p >= 1
      invariant productUrls + WalkUrls(listing, p, maxPages) == WalkUrls(listing, 1, maxPages)
      decreases maxPages - p
    {
      var items := listing(p).hrefs;
      if |items| == 0 {
        break;
      }
      var pageUrls := PageProductUrls(items);
      productUrls := productUrls + pageUrls;
      var moved := listing(p).moved;
      if !moved {
        break;
      }
      p := p + 1;
    }
  }

  /** `crawl_info_page` on every URL: its records, or the exception it raises. */
  function PageOutcome(load: string -> Visit): (crawl: string -> Result<seq<Record>, CrawlError>)
    ensures forall url :: crawl(url) == PageRecords(load(url), url)
  {
    url => PageRecords(load(url), url)
  }

  /** What one URL adds to the results: its records, or nothing when it raises. */
  function Contribution<T, E>(outcome: Result<seq<T>, E>): seq<T> {
    if outcome.Success? then outcome.value else []
  }

  /** The records of the given URLs whose crawl did not raise, in URL order. */
  function Gathered<T, E>(urls: seq<string>, crawl: string -> Result<seq<T>, E>): seq<T> {
    if urls == [] then []
    else Gathered(urls[..|urls| - 1], crawl) + Contribution(crawl(urls[|urls| - 1]))
  }

  /**
   * The loop of `crawl_category` over the collected URLs: each page's
   * records are appended, and a page that raises is skipped.
   */
  method CollectRecords(urls: seq<string>, load: string -> Visit) returns (results: seq<Record>)
    ensures results == Gathered(urls, PageOutcome(load))
  {
    results := [];
    var idx := 0;
    while idx < |urls|
      invariant 0 <= idx <= |urls|
      invariant results == Gathered(urls[..idx], PageOutcome(load))
    {
      var url := urls[idx];
      assert urls[..idx + 1][..idx] == urls[..idx];
      var info := CrawlInfoPage(load(url), url);
      assert info == PageOutcome(load)(url);
      if info.Success? {
        results := results + info.value;
      }
      idx := idx + 1;
    }
    assert urls[..idx] == urls;
  }

  /** `crawl_category(category_url)` up to writing the CSV file. */
  method CrawlCategory(listing: nat -> ListingPage, load: string -> Visit) returns (results: seq<Record>)
    ensures results == Gathered(WalkUrls(listing, 1, DefaultMaxPages), PageOutcome(load))
  {
    var urls := CrawlCategoryAllPages(listing, DefaultMaxPages);
    results := CollectRecords(urls, load);
  }

  /** Filtering distributes over concatenation. */
  lemma {:induction false} HttpUrlsAppend(a: seq<Option<string>>, b: seq<Option<string>>)
    ensures HttpUrls(a + b) == HttpUrls(a) + HttpUrls(b)
    decreases |b|
  {
    if b == [] {
      assert a + b == a;
    } else {
      var front := b[..|b| - 1];
      assert (a + b)[..|a + b| - 1] == a + front;
      HttpUrlsAppend(a, front);
    }
  }

  /** A page's URLs are exactly its hrefs that are present and start with "http". */
  lemma {:induction false} HttpUrlsMembers(hrefs: seq<Option<string>>, u: string)
    ensures u in HttpUrls(hrefs) <==> Some(u) in hrefs && StartsWith(u, "http")
  {
    if hrefs != [] {
      var front := hrefs[..|hrefs| - 1];
      HttpUrlsMembers(front, u);
      assert hrefs == front + [hrefs[|hrefs| - 1]];
    }
  }

  /** Every collected URL starts with "http". */
  lemma {:induction false} WalkUrlsAreProductUrls(listing: nat -> ListingPage, p: nat, maxPages: int)
    ensures forall u :: u in WalkUrls(listing, p, maxPages) ==> StartsWith(u, "http")
    decreases maxPages - p
  {
    if p <= maxPages && |listing(p).hrefs| > 0 {
      forall u | u in HttpUrls(listing(p).hrefs)
        ensures StartsWith(u, "http")
      {
        HttpUrlsMembers(listing(p).hrefs, u);
      }
      if listing(p).moved {
        WalkUrlsAreProductUrls(listing, p + 1, maxPages);
      }
    }
  }

  /** The walk reads pages `p, p + 1, ...` in turn and never goes past the cap. */
  lemma {:induction false} VisitedPagesRange(listing: nat -> ListingPage, p: nat, maxPages: int)
    ensures p > maxPages ==> VisitedPages(listing, p, maxPages) == []
    ensures p <= maxPages ==> 1 <= |VisitedPages(listing, p, maxPages)| <= maxPages - p + 1
    ensures forall k :: 0 <= k < |VisitedPages(listing, p, maxPages)| ==> VisitedPages(listing, p, maxPages)[k] == p + k
    decreases maxPages - p
  {
    if p <= maxPages && |listing(p).hrefs| > 0 && listing(p).moved {
      VisitedPagesRange(listing, p + 1, maxPages);
    }
  }

  /** At most `max_pages` listing pages are read, numbered from 1. */
  lemma PagesVisitedBound(listing: nat -> ListingPage, maxPages: int)
    ensures |VisitedPages(listing, 1, maxPages)| <= if maxPages < 0 then 0 else maxPages
    ensures forall q :: q in VisitedPages(listing, 1, maxPages) ==> 1 <= q <= maxPages
  {
    VisitedPagesRange(listing, 1, maxPages);
  }

  /**
   * The walk goes on past a page only when that page has items and the move
   * succeeded; it stops at the first page without items, at the first failed
   * move, or at the cap.
   */
  lemma {:induction false} VisitedPagesStops(listing: nat -> ListingPage, p: nat, maxPages: int)
    requires p <= maxPages
    ensures var pages := VisitedPages(listing, p, maxPages);
            && |pages| > 0
            && (forall k :: 0 <= k < |pages| - 1 ==> |listing(pages[k]).hrefs| > 0 && listing(pages[k]).moved)
            && var last := pages[|pages| - 1];
               |listing(last).hrefs| == 0 || !listing(last).moved || last == maxPages
    decreases maxPages - p
  {
    if |listing(p).hrefs| > 0 && listing(p).moved && p + 1 <= maxPages {
      VisitedPagesStops(listing, p + 1, maxPages);
      VisitedPagesRange(listing, p + 1, maxPages);
    }
  }

  /** The collected URLs are the product URLs of the visited pages, page after page. */
  lemma {:induction false} WalkIsVisitedUrls(listing: nat -> ListingPage, p: nat, maxPages: int)
    ensures WalkUrls(listing, p, maxPages) == UrlsOfPages(listing, VisitedPages(listing, p, maxPages))
    decreases maxPages - p
  {
    if p <= maxPages {
      var hrefs := listing(p).hrefs;
      if |hrefs| == 0 {
        assert hrefs == [];
        assert UrlsOfPages(listing, [p]) == HttpUrls(hrefs) + UrlsOfPages(listing, []);
      } else if !listing(p).moved {
        assert UrlsOfPages(listing, [p]) == HttpUrls(hrefs) + UrlsOfPages(listing, []);
      } else {
        WalkIsVisitedUrls(listing, p + 1, maxPages);
        var rest := VisitedPages(listing, p + 1, maxPages);
        assert ([p] + rest)[1..] == rest;
      }
    }
  }

  /** Pages the walk does not visit have no influence on what it collects. */
  lemma {:induction false} WalkReadsOnlyVisited(l1: nat -> ListingPage, l2: nat -> ListingPage, p: nat, maxPages: int)
    requires forall q :: q in VisitedPages(l1, p, maxPages) ==> l1(q) == l2(q)
    ensures VisitedPages(l2, p, maxPages) == VisitedPages(l1, p, maxPages)
    ensures WalkUrls(l2, p, maxPages) == WalkUrls(l1, p, maxPages)
    decreases maxPages - p
  {
    if p <= maxPages {
      assert p in VisitedPages(l1, p, maxPages);
      if |l1(p).hrefs| > 0 && l1(p).moved {
        WalkReadsOnlyVisited(l1, l2, p + 1, maxPages);
      }
    }
  }

  /** Accumulation distributes over concatenation of the URL list. */
  lemma {:induction false} GatheredAppend<T, E>(a: seq<string>, b: seq<string>, crawl: string -> Result<seq<T>, E>)
    ensures Gathered(a + b, crawl) == Gathered(a, crawl) + Gathered(b, crawl)
    decreases |b|
  {
    if b == [] {
      assert a + b == a;
    } else {
      var front := b[..|b| - 1];
      assert (a + b)[..|a + b| - 1] == a + front;
      assert (a + b)[|a + b| - 1] == b[|b| - 1];
      GatheredAppend(a, front, crawl);
    }
  }

  /** One URL contributes its page's records, or nothing if the page raises. */
  lemma GatheredOne<T, E>(url: string, crawl: string -> Result<seq<T>, E>)
    ensures crawl(url).Success? ==> Gathered([url], crawl) == crawl(url).value
    ensures crawl(url).Failure? ==> Gathered([url], crawl) == []
  {
    assert [url][..0] == [];
  }

  /** A URL whose page raises contributes nothing and does not stop the URLs after it. */
  lemma GatheredSkipsFailure<T, E>(before: seq<string>, url: string, after: seq<string>, crawl: string -> Result<seq<T>, E>)
    requires crawl(url).Failure?
    ensures Gathered(before + [url] + after, crawl) == Gathered(before, crawl) + Gathered(after, crawl)
  {
    GatheredAppend(before + [url], after, crawl);
    GatheredAppend(before, [url], crawl);
    GatheredOne(url, crawl);
  }

  /** Every gathered record comes from a URL in the list whose crawl succeeded. */
  lemma {:induction false} GatheredFrom<T, E>(urls: seq<string>, crawl: string -> Result<seq<T>, E>, rec: T)
    requires rec in Gathered(urls, crawl)
    ensures exists url :: url in urls && crawl(url).Success? && rec in crawl(url).value
  {
    var front := urls[..|urls| - 1];
    var url := urls[|urls| - 1];
    if rec in Gathered(front, crawl) {
      GatheredFrom(front, crawl, rec);
      var u :| u in front && crawl(u).Success? && rec in crawl(u).value;
      assert u in urls;
    } else {
      assert url in urls && crawl(url).Success? && rec in crawl(url).value;
    }
  }

  /** Every record in the results names a page among the URLs that was crawled successfully. */
  lemma GatheredProvenance(urls: seq<string>, load: string -> Visit, rec: Record)
    requires rec in Gathered(urls, PageOutcome(load))
    ensures rec.detailUrl in urls
    ensures PageRecords(load(rec.detailUrl), rec.detailUrl).Success?
    ensures rec in PageRecords(load(rec.detailUrl), rec.detailUrl).value
  {
    GatheredFrom(urls, PageOutcome(load), rec);
    var url :| url in urls && PageOutcome(load)(url).Success? && rec in PageOutcome(load)(url).value;
    match load(url)
    case Loaded(page) =>
      PageRecordsShared(page, url);
  }
}

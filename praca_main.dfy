/** The `while True` loop of the praca.pl `main`, proved against the
    outcomes described in `PracaCrawl`. */
module PracaMain {
  import opened Wrappers
  import opened Web
  import opened Frame
  import opened PracaPl
  import opened PracaCrawl

  /** The part of the loop body after page 1's set-up: scrape the page, add
      its rows to the accumulated table, re-sort it, and apply the stop
      rules. */
  method ScrapeAndCheck(site: Site, page: nat, maxPage: int, last: Option<int>, acc: seq<Offer>, driver: Driver)
    returns (st: Step)
    requires SortedDesc(acc, Posted)
    modifies driver
    ensures StepOutcome(site, page, maxPage, last, acc, st)
    ensures driver.log == old(driver.log) + [Scrape(page)]
  {
    driver.Request(Scrape(page));
    var offers := ScrapeOffers(site.pages(page).cards, site.clock(page));
    if offers.Failure? {
      return Break(Failure(ScrapeFailed(page, offers.error)));
    }
    var rows := offers.value;
    if rows == [] {
      return Break(Success(Crawled(acc, page, EmptyPage)));
    }
    var sorted := SortDesc(acc + rows, Posted);
    if page >= maxPage {
      return Break(Success(Crawled(sorted, page, LastPage)));
    }
    if CaughtUpWith(rows, last) {
      return Break(Success(Crawled(sorted, page, CaughtUp)));
    }
    st := Continue(sorted);
  }

  /** Page 1's set-up: click the cookie banner's button, which fails when
      there is none, then read the page count off the "last page" link. */
  method SetUp(site: Site, driver: Driver) returns (first: Result<int, CrawlError>)
    modifies driver
    ensures first == FirstPage(site)
    ensures driver.log == old(driver.log) + SetUpRequests(site)
  {
    var shown := site.pages(1);
    if !shown.cookieButton {
      return Failure(NoCookieButton);
    }
    driver.Request(ClickCookies);
    driver.Request(ReadMaxPage);
    var m := ReadMaxPageNumber(shown.lastLink);
    if m.Failure? {
      return Failure(BadPagination(m.error));
    }
    first := Success(m.value);
  }

  /** One pass of the loop body over a page the crawl got to: it either
      ends the crawl as the crawl promises or restores the loop's invariant
      for the next page. */
  method VisitPage(site: Site, last: Option<int>, maxPage: int, page: nat, acc: seq<Offer>, driver: Driver)
    returns (st: Step, next: nat)
    requires Progress(site, last, maxPage, page, acc)
    modifies driver
    ensures next == page + 1
    ensures st.Break? ==>
      && (st.r.Success? ==> Stopped(site, last, st.r.value))
      && (st.r.Failure? ==> FailedAt(site, last, st.r.error))
      && ActionsOf(st.r) == Visits(page)
    ensures st.Continue? ==> next <= maxPage && Progress(site, last, maxPage, next, st.acc)
    ensures driver.log == old(driver.log) + [Scrape(page)]
  {
    next := page + 1;
    st := ScrapeAndCheck(site, page, maxPage, last, acc, driver);
    StepFacts(site, last, maxPage, page, next, acc, st);
  }

  /** Open page `page` and, on page 1, set it up, which gives the page
      count: either the set-up fails, with the requests that failure
      records, or the page is ready to scrape. */
  method OpenPage(site: Site, last: Option<int>, maxPage: int, page: nat, acc: seq<Offer>, driver: Driver)
    returns (failed: Option<CrawlError>, count: int)
    requires page >= 1
    requires page == 1 ==> acc == []
    requires page > 1 ==> Progress(site, last, maxPage, page, acc)
    modifies driver
    ensures driver.log == old(driver.log) + Opening(site, page)
    ensures failed.Some? ==>
      && page == 1
      && FailedAt(site, last, failed.value)
      && Opening(site, page) == ActionsOf(Failure(failed.value))
    ensures failed.None? ==>
      && (page > 1 ==> count == maxPage)
      && Progress(site, last, count, page, acc)
  {
    failed, count := None, maxPage;
    ghost var before := driver.log;
    driver.Request(Navigate(page));
    if page == 1 {
      var first := SetUp(site, driver);
      assert driver.log == before + Opening(site, page);
      if first.Failure? {
        failed := Some(first.error);
        SetUpFailureLogged(site);
        return;
      }
      count := first.value;
      SetUpProgress(site, last);
    }
  }

  /** The `while True` loop of `main`: pages 1, 2, ... are opened and
      scraped in turn; after each page the accumulated table is re-sorted by
      posting date, and the crawl stops at an empty page, at the last page,
      or once a page is older than the high-water mark `last`, checked in
      that order. The driver's log grows by the requests the crawl makes. */
  method Crawl(site: Site, last: Option<int>, driver: Driver) returns (r: Result<Crawled, CrawlError>)
    modifies driver
    ensures r.Success? ==> Stopped(site, last, r.value)
    ensures r.Failure? ==> FailedAt(site, last, r.error)
    ensures driver.log == old(driver.log) + ActionsOf(r)
  {
    ghost var start := driver.log;
    var page: nat := 1;
    var visited: nat := 0;
    var maxPage: int := 1;
    var acc: seq<Offer> := [];
    while true
      invariant page == visited + 1
      invariant page == 1 ==> acc == []
      invariant driver.log == start + Visits(visited)
      invariant page > 1 ==> Progress(site, last, maxPage, page, acc)
      decreases (if page == 1 then 1 else 0), maxPage - page
    {
      var failed, count := OpenPage(site, last, maxPage, page, acc, driver);
      if failed.Some? {
        r := Failure(failed.value);
        return;
      }
      maxPage := count;
      OpenedAndScraped(site, start, visited, page);
      var st, next := VisitPage(site, last, maxPage, page, acc, driver);
      if st.Break? {
        r := st.r;
        return;
      }
      acc := st.acc;
      visited, page := page, next;
    }
  }
}
